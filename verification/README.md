# Verification of the Atari expansion's protocols and disks

A Dafny model of the parts of the firmware whose correctness is argued in comments
or not at all: the DMA link to the sidecar and the command protocol on it, the
extended-memory bank pool, the disabling of the bus while the other core runs, the
synthesized SpartaDOS disk image and its write-back, and the smaller algorithms
around them. `dafny verify dfyconfig.toml` checks it all.

## What is modelled

**The link** (`components/sidecar_link/`). `Wire`, `LockUnique`, `LockEarly`, `WireCodec`
and `LockSearch` are the wire format: the cycle map, decoding at any of the 16 bit offsets,
and the lock search, which is proved sound and complete, and sound too while part of the
ring still holds the filler. `LinkTx` (writer and TX DMA), `LinkRx` and `Beam` (RX DMA,
whose length write-backs are steps of their own and may come a descriptor late), and `Link`
(the reader) form one machine whose steps are single memory accesses, interleaved in any
way and at any pace. `LinkProof`, `LinkDecide` and `LinkRuns` prove its invariant and the
end-to-end theorem over all runs, and `LinkVerdicts` what each verdict says of the lap that
was sampled; `LinkBreaks` is the run in which its one timing assumption is broken. `LinkWriter` and `LinkReader` are the C functions on their arrays; the
writer's stores, and by `LinkSteps` the reader's accesses, are steps of that machine.
`Region` and `RegionAny` are the raw region's geometry. `ReadLoop` is the bounded wait.
`LatestValue` is one direction of the link as its users have it, `Register` its runs, and
`LinkLater` and `LinkLatest` show that the deliveries of every link run are such reads, for
a reader that begins to listen late, too. `Sidecar` is host and service, `SidecarRuns` both
with restarts over two such directions, `SidecarAnswers` what an answer holds,
`SidecarStale` says when it can be another command's, and `SidecarSteps` that the methods
take the steps of those runs.

**Memory.** `Recency`, `BankLayout`, `ExtBank` and `ExtMem`: the bank pool, its LRU list
and the page tables refine an array of flat banks; `BankWindow` says what is written under
one PORTB value and seen under another. `BusMmu`, `BusSettle` and `BusCores`:
core 1's accesses and core 0's pointer-by-pointer copies, interleaved.

**The disk image** (`main/diskStitchImageSDFS.h`). `SdfsMap` builds and parses sector
chains; `SdfsAlloc`, `SdfsDirectory`, `SdfsInit` and `SdfsFormat` make the image;
`SdfsParse` and `SdfsRoles` say what it is. `SdfsDisk` is the guest's view, `SdfsNames` and
`SdfsEntries` the names and finished entries of its directory, and `SdfsImage`, with
`SdfsBitmap`, the guest's write, the three commits, deletes and renames as the code runs
them. `SdfsWrite`,
`SdfsCreate`, `SdfsAppend`, `SdfsAppended`, `SdfsReplace`, `SdfsOwners`, `SdfsDelete` and
`SdfsRename` say what these do to the guest's view and the host files, `SdfsApart`,
`SdfsOthers` and `SdfsAccounts` what they leave alone and who owns what, `SdfsRuns` what
holds over any sequence of them, and `SdfsCommits` exactly when a change that goes through
is a step of such a sequence. `SdfsLive` says exactly what the commits ask of the guest's
sectors, and `SdfsGood` that files of any length, staged as a generated image has them, go
through and become host files. `SdfsBreaks` has inputs with which it is not, and
`SdfsReached` the guest's writes that lead to them from a fresh image.

**Small algorithms.** `Glob` (both wildcard matchers), `AtariNames`, `AtariAliases`,
`AtariAssign` and `AtariLaws` (8.3 names), `HandleCache`, and `DiskBytes` with `AptDrives` (byte ranges
and partitions).

## What the model found

- The iterative `globMatches` is wrong for some pattern on every text that contains a
  `*`: it compares the characters before it looks for a star. `GlobRightIffNoStar`.
- A host that restarts can take an older response for its own. At a restart one of its
  first commands can be given one if and only if the response on the wire, the command
  that the service is busy with, or the last one that the service has received and not
  read, has one of the numbers it will use: `ForeignIffRisky`. `StaleAnswer` is such a run.
- A create commits without checking that the new file's sectors are free. `CreateTakesUsed`
  is an input with which it takes another file's sector; `CreateGood` says that it keeps
  the disk, the host files and the count right exactly if none of its sectors was in use.
- A replacement checks only that its sectors are no other file's data. One that lists a
  sector of the bitmap goes through and loses what the guest wrote: `ReplaceLosesData`.
  `ReplaceGood` has the exact condition.
- An append without new data sectors does not check that its new maps are free.
  `AppendGood` has the exact condition.
- While a replacement of a file is pending, its writes do not go through to the host file.
  An append of such a file commits all the same, and leaves old bytes in the host file:
  `AppendLosesData`. `AppendedFile` has the exact condition; without a pending replacement
  the host file is always right: `CommitsAreSeen`.
- A rename drops a pending replacement of the file, and with it what is staged only:
  `RenameLosesData`. It also looks at the names that the guest sees, and not at those on
  the host. `RenameGood` has the exact condition.
- If two descriptors are written back between the reader's E access and its G store, a
  closed window looks open. The run of `SecondWriteBackBreaks` gets there, so the link's
  assumption that at most one is written back is necessary.
- Neither read nor write cycles alone clear all stale pointers after `disableBus`.
  `ReadsAlone`, `WritesAlone`, `StaleAfterCopy`.
- `mmuOnChange` starts with 0 as the last bank number, so a first select of pattern 0 is
  skipped: its data are right, but its bank may stay in PSRAM. `ExtMemory.Select` says
  exactly when, and `FirstSelect` starts such a system.

## Assumptions of the link's theorems

- The aligned words H, T and CRC are stored and sampled whole; other bytes one at a
  time, which is finer than the code's copies.
- At most one descriptor is written back between an E access and the G store that follows.
- A descriptor's length is written back before the beam has passed the next descriptor.
- All bytes that come in are of one session of the writer.
- Fewer than 2^32 - 1 versions are written during one pass of the TX DMA.
- The wire has no bit errors; CRC is an uninterpreted function.
- A host session sends fewer than 2^32 commands, and an end that restarts is down for
  longer than what it has sent takes to come in.

## Model

| member | source | states |
|---|---|---|
| Wire.SwapTwice | components/sidecar_link/i2slink_csim.cpp:86-95 | The byte swap within 16-bit samples is its own inverse and stays in the cycle. |
| Wire.DecodeBit | components/sidecar_link/i2slink_wire.h:79-98 | Bit i of a decoded byte is one bit of the wire, 8 * lane + phase bits on from the byte's place: what the shift expression does, bit by bit. |
| Wire.DecodeCarried | components/sidecar_link/i2slink_wire.h:75-114 | For every bit shift, decoding under the true (phase, lane, marker) returns the byte that was sent at every TX offset. |
| Wire.TrueFrameValid | components/sidecar_link/i2slink_wire.h:157-186 | Completeness: a ring that carries a cycle's fixed bytes has a valid frame at the true lock, whatever payload, stamps and CRC are, even from a mix of laps. |
| ByteBits.SpliceIsShift | components/sidecar_link/i2slink_wire.h:89-98 | The splice of two bytes' bits is (high << phase) cut to a byte, or'ed with (low >> (8 - phase)). |
| ByteBits.SpliceBit | components/sidecar_link/i2slink_csim.cpp:98-102 | Bit by bit: the splice takes the last 8 - phase bits of one byte and the first phase bits of the next. |
| LockUnique.UniqueFrame | components/sidecar_link/i2slink_wire.h:157-195 | Soundness: a valid frame found in such a ring, under any tag, is at the true phase, lane and marker and carries the sender's tag; odd markers and other offsets are impossible. |
| LockUnique.FrameIffSent | components/sidecar_link/i2slink_wire.h:157-195 | A valid frame is at (phase, lane, marker) if and only if these are the true lock and the tag is the one sent. |
| LockEarly.UniqueInPart | components/sidecar_link/i2slink.c:307-318 | Soundness before a whole cycle has come in: in a ring whose bytes are the filler or the stream's, a valid frame is at the true lock, and the byte in which its zeros end has come in. |
| WireCodec.RunsInit | components/sidecar_link/i2slink_wire.h:49-62 | The runs are the five pieces between H and the CRC, in order, and their lengths add up to the payload. |
| WireCodec.RunByte | components/sidecar_link/i2slink_wire.h:42-62 | Byte k of a run is payload byte base + k: the runs scatter the payload without gap or overlap. |
| WireCodec.PayloadPlaces | components/sidecar_link/i2slink_wire.h:42-62 | Every offset between H and CRC that is not fixed is a payload byte's, |
| WireCodec.PayloadAscends | components/sidecar_link/i2slink_wire.h:42-62 | and they are in ascending order. |
| WireCodec.WireCycleInit | components/sidecar_link/i2slink_wire.h:64-73 | The template holds VSYNC zeros, every marker and the tag, and zero everywhere else. |
| WireCodec.Transmit | components/sidecar_link/i2slink_csim.cpp:86-106 | After a transmission at any bit shift the received ring carries every byte of the cycle, that many bits late. |
| WireCodec.TransmittedIsFramed | components/sidecar_link/i2slink_csim.cpp:86-106 | So what is received carries the fixed bytes, which is what the lock search needs. |
| WireCodec.WireDecodePayload | components/sidecar_link/i2slink_wire.h:143-155 | The gathered payload is, byte for byte, the decode of the payload's TX offsets. |
| WireCodec.GatherTransmitted | components/sidecar_link/i2slink_wire.h:143-155 | Scatter, transmit and gather is the identity on payloads, for every shift. |
| WireCodec.DecodeWord | components/sidecar_link/i2slink_wire.h:116-126 | A little-endian word sent at an offset is decoded as that word under the true lock. |
| LockSearch.WireSearch | components/sidecar_link/i2slink_wire.h:157-195 | Success returns a lock with a valid frame; failure means that no bit offset and no position has one. |
| LockSearch.SearchFramed | components/sidecar_link/i2slink_wire.h:157-195 | On any ring that carries a sender's fixed bytes, from any starting offset, the search succeeds if and only if the tag is the sender's, and then returns the true lock. |
| LockSearch.WireFramingOk | components/sidecar_link/i2slink_wire.h:128-141 | True if and only if all internal markers are where the lock says. |
| LinkTx.StampsDiffer | components/sidecar_link/i2slink.c:133-137 | Versions less than 2^32 - 1 apart have different stamps, wrap-around past 0 included. |
| LinkTx.TxNextInv | components/sidecar_link/i2slink.c:141-152 | Every store of the writer and every word sampled by the TX DMA, in any interleaving, keeps the sender's invariant; markers, VSYNC and tag never change. |
| LinkTx.EqualStampsWhole | components/sidecar_link/i2slink.c:141-152 | If a lap's sampled H and T are equal and not 0, all of its payload and its CRC are of the one version stamped so: no torn lap looks whole. |
| LinkWriter.Writer.Write | components/sidecar_link/i2slink.c:131-154 | The call adds one version, and each of its stores, in program order, is a step of the sender's machine. |
| LinkWriter.Writer.StoreT | components/sidecar_link/i2slink.c:141-143 | T is stored first and begins the version. |
| LinkWriter.Writer.StoreRuns | components/sidecar_link/i2slink.c:144-148 | The payload is stored run by run, each byte one step. |
| LinkWriter.Writer.StoreEnd | components/sidecar_link/i2slink.c:149-152 | The CRC is stored before H, and H closes the version. |
| LinkWriter.TraceInv | components/sidecar_link/i2slink.c:131-154 | So the sender's invariant holds after every single store of a write. |
| Region.RegionShape | components/sidecar_link/i2slink.c:260-270 | For every lock the region starts on a sample, has whole samples, and is no longer than the static bound. |
| Region.RegionCovers | components/sidecar_link/i2slink.c:262-270 | Every raw byte that decoding an offset between H and the end reads lies in the region, for every marker and lane of the real geometry. |
| RegionAny.Covers | components/sidecar_link/i2slink.c:262-270 | The same for any even cycle and any offsets and descriptors that meet the static assertions. |
| Region.CopyDecodes | components/sidecar_link/i2slink.c:262-300 | So decoding the copied region equals decoding the ring. |
| Region.GuardOutside | components/sidecar_link/i2slink.c:27-34 | For any descriptor count and size that meet the static assertion, no byte of the region is in the guard descriptor or in the spare one after it. |
| Region.TripwiresOutside | components/sidecar_link/i2slink.c:273-281 | For the real geometry: the assertion holds, guard and spare descriptors are outside the region, and guard and end descriptors differ. |
| LinkRx.ReceiveInv | components/sidecar_link/i2slink.h:9-30 | As bytes come in, the ring holds the last lap of what was received, the filler where nothing has come in yet, and what was received is what was sent, a fixed number of bits on. |
| LinkRx.WriteBackInv | components/sidecar_link/i2slink.c:159-173 | So they do when a length is written back, which may be up to a descriptor late. |
| LinkRx.MixedIsFramed | components/sidecar_link/i2slink.c:307-318 | A snapshot whose bytes came in during different laps still carries the sender's fixed bytes. |
| Beam.WindowEvents | components/sidecar_link/i2slink.c:159-173 | The end descriptor's write-back opens the window, the guard's closes it, and no other changes it. |
| Beam.EndArrives | components/sidecar_link/i2slink.c:159-163 | When E is written back the whole region has come in. |
| Beam.WindowBase | components/sidecar_link/i2slink.c:159-173 | While the window is open, a whole region has come in, and its next first byte is two descriptors or more past the last write-back: one that a write-back may be late, and one on top. |
| Beam.BaseStays | components/sidecar_link/i2slink.c:159-173 | A write-back after which the window is still open leaves that region the last one. |
| RegionDecode.RegionCarries | components/sidecar_link/i2slink.c:262-300 | A copy of a region received in a row carries, between H and the end, the bytes of one lap of the sender. |
| CleanRegion.CleanVersion | components/sidecar_link/i2slink.c:364-394 | Equal stamps in such a copy: its payload and CRC are those of the version with this stamp. |
| Judge.JudgedSame | components/sidecar_link/i2slink.c:345-394 | What take_window() decides from the copied region is what it would decide from the ring. |
| Judge.JudgedGood | components/sidecar_link/i2slink.c:358-394 | A framed ring whose CRC is right is never reported as a framing or CRC error; a new version has equal stamps that are not the last ones read. |
| Judge.WholeCycleIsNew | components/sidecar_link/i2slink.c:358-394 | A transmitted cycle with one version in it, received at any shift, is judged to be that version, or stale if it was read last. |
| Judge.VerdictMeans | components/sidecar_link/i2slink.c:358-394 | The same five conditions, both ways, of the judgement of any ring under any lock. |
| LinkReader.Receiver.TripwireStep | components/sidecar_link/i2slink.c:174-193 | The state for each of the four combinations of E and G, each exactly then, and exactly which of the two descriptors are cleared. |
| LinkReader.Receiver.ArmBoth | components/sidecar_link/i2slink.c:195-199 | Both tripwire descriptors are cleared, and no other. |
| LinkReader.Receiver.CopyRegion | components/sidecar_link/i2slink.c:289-300 | The copy holds the ring's bytes of the region, across the ring's end too, and is unchanged elsewhere. |
| LinkReader.Receiver.FindLock | components/sidecar_link/i2slink.c:307-327 | Found means a valid frame in the ring, its region set and both tripwires cleared; not found means that there is none. |
| LinkReader.Receiver.TakeWindow | components/sidecar_link/i2slink.c:345-394 | Tripped exactly if the guard was set; else framing fails exactly if a marker byte between the stamps is wrong; else torn exactly if H and T differ; else stale exactly if H is 0 or was read last; else the CRC fails exactly if it is not the payload's; else new, with that stamp and payload. The copy, the tripwires, and what of lock, last stamp and decoded payload changes for each. |
| LinkSteps.TripwireStepIs | components/sidecar_link/i2slink.c:174-193 | Run undisturbed, the accesses of tripwire_step() are steps of the link's machine that end as the method does. |
| LinkSteps.CopyRegionIs | components/sidecar_link/i2slink.c:289-300 | So are those of copy_region(): the machine ends with exactly the region's bytes copied. |
| LinkSteps.TakeWindowIs | components/sidecar_link/i2slink.c:345-394 | So are those of take_window(), for every verdict. |
| LinkSteps.FindLockIs | components/sidecar_link/i2slink.c:307-327 | So are those of search(), whenever it is called; sender and receiver stay as they are but for the two armed descriptors. |
| LinkProof.BackTrip | components/sidecar_link/i2slink.c:159-173 | A write-back keeps "E set and G clear means that the window is open". |
| LinkProof.BackArm | components/sidecar_link/i2slink.c:169-173 | One write-back between an E access and the G store is harmless. |
| LinkProof.BackCopy | components/sidecar_link/i2slink.c:289-300 | While G stays clear, what has been copied stays the current region's. |
| LinkProof.SearchFoundInv | components/sidecar_link/i2slink.c:307-327 | Whatever lock a search finds, at any point of a run, before a whole cycle has come in too, is the true one, and the invariant holds for its region. |
| LinkProof.LockAhead | components/sidecar_link/i2slink.c:307-321 | So much has come in when a search succeeds that E's next write-back is that of a whole region. |
| LinkDecide.CleanOutcome | components/sidecar_link/i2slink.c:358-394 | An untripped copy under the true lock is a version of the writer, stale or torn, never a framing or CRC error. |
| LinkRuns.NextInv | components/sidecar_link/i2slink.c:131-394 | Every step of writer, TX DMA, RX DMA, its write-backs and the reader keeps the link's invariant. |
| LinkRuns.EndToEnd | components/sidecar_link/i2slink.c:309-394 | In every run, from a ring that holds only the filler, in any interleaving and with searches at any time, each payload returned as new under stamp h is byte for byte the version stamped h, and successive ones are strictly newer, across lost locks and relocks. |
| LinkRuns.TripwireSafety | components/sidecar_link/i2slink.c:159-226 | In every run, on every re-arming path, E set and G clear means that a whole region came in and that the beam has not passed the place where it begins again, although a write-back may be a descriptor late. |
| LinkRuns.UntrippedCopy | components/sidecar_link/i2slink.c:289-357 | In every run, a copy after which G is still clear holds bytes of one lap, in a row. |
| LinkRuns.NoFalseAlarm | components/sidecar_link/i2slink.c:309-380 | In every run without bit errors locks are true, a search that begins with a whole cycle in the ring succeeds, and neither framing nor CRC ever fails. |
| LinkVerdicts.VerdictOfLap | components/sidecar_link/i2slink.c:358-394 | In every run, an untripped copy is torn if and only if H and T of its lap were sampled from different versions; else it is stale if and only if there was no version or its stamp was read last; else it is that version. |
| LinkVerdicts.StaleMeans | components/sidecar_link/i2slink.c:369-372 | In every run whose reader begins with nothing read, with fewer than 2^32 - 1 versions since the last delivery: a copy is stale if and only if its lap holds no version, or whole the one delivered last. |
| LinkLater.LapIsLater | components/sidecar_link/i2slink.c:309-327 | H of the lap that a delivered region is from was sampled after the reader began to listen. |
| LinkLatest.DeliveriesAreReads | components/sidecar_link/i2slink.h:11-21 | Any link run, and any time at which its reader begins to listen, is a run of a latest-value register: each delivery was the latest version at some time since, they come in order, and none comes twice. |
| LinkBreaks.SecondWriteBackBreaks | components/sidecar_link/i2slink.c:169-173 | A run of the machine to a G store with E set; if G is written back too before the store, the reader's next look says that the window is open, and it is not. |
| ReadLoop.Read | components/sidecar_link/i2slink.c:396-468 | With a finite wait it stops within one pass of the longer of the two times, returns new exactly for a new copy, TIMEOUT only after a clean one, a fault only when the sync timeout has passed since the last pass with a clean copy began, or since the call, and then the one that FaultMeans says; it leaves the payload alone unless new. |
| ReadLoop.GoesOnWithin | components/sidecar_link/i2slink.c:453-461 | As long as it goes on, no more than max(wait, sync timeout) has passed. |
| ReadLoop.EvenPasses | components/sidecar_link/i2slink.c:450-452 | The clock of that bound: n passes of the same length take n times as long. |
| ReadLoop.FaultMeans | components/sidecar_link/i2slink.c:404-449 | NO_LOCK if and only if the last pass that decides is a failed search or a framing failure; CRC if and only if it is a CRC failure; TORN if and only if it is a torn or a stale copy, or none decides and a tripwire was seen set; STALLED if and only if none decides and all were quiet. Failed searches and stale, torn, CRC or framing copies decide. |
| ReadLoop.FaultedMeans | components/sidecar_link/i2slink.c:436-461 | The time that runs against the sync timeout is that since the last pass with a clean copy began, or since the call. |
| Sidecar.Host.Transact | components/sidecar_link/sidecar.cpp:134-170 | One command is written under the next number; Ok if and only if the read that ended it was a response to that very header, which is what is returned. |
| Sidecar.SequencesDiffer | components/sidecar_link/sidecar.cpp:142-142 | Fewer than 2^32 commands of a session have different numbers. |
| Sidecar.Service.Serve | components/sidecar_link/sidecar.cpp:197-241 | The first command after a start is dropped; Nop, SIO and CIO are handled once and answered, others are not. The answer has the command's byte, number and flags; a Nop's has status 0 and the command's body, any other's the status and body that the handler gave for the command with status 0. |
| SidecarRuns.AtMostOnce | components/sidecar_link/sidecar.cpp:213-216 | In every run, with any restarts of both ends and any versions lost, no host write is handled twice. |
| SidecarRuns.OkIsOwn | components/sidecar_link/sidecar.cpp:162-167 | In every run an Ok carries the response to a command that was handled, with the very header; it is that command's own unless it is one from before the host's last restart. |
| SidecarAnswers.OkIsHandled | components/sidecar_link/sidecar.cpp:221-241 | In every run an Ok's response was written by one step of the service, for the command that it belongs to and that the service had read: header, status and body are that command's and its handler's, or a Nop's echo. |
| SidecarAnswers.ReplyIsAnswer | components/sidecar_link/sidecar.cpp:221-241 | In every run each response is the answer to a command that was read, with the status and body of its handler. |
| SidecarRuns.FreshStartIsSafe | components/sidecar_link/sidecar.cpp:142-167 | If a session's numbers are apart from those of all earlier commands, every Ok is the command's own response. |
| SidecarRuns.StaleAnswer | components/sidecar_link/sidecar.cpp:162-167 | Without that, a run in which a restarted host takes an old response for the answer to its first command. |
| SidecarStale.ForeignIffRisky | components/sidecar_link/sidecar.cpp:134-170 | Whenever a host begins, after any run: one of its first limit commands can be given another command's response if and only if the response on the wire, the command that the service is busy with, or the last one it has received, will read and knows, has one of its first limit numbers. |
| SidecarSteps.TransactIs | components/sidecar_link/sidecar.cpp:134-170 | From a host write on, with whatever service, link and restarts of the service do between the reads: given what its reads return, transact() returns Ok exactly if the run notes the matching response for that command, with that response; else it ends in the host giving up, with nothing noted. |
| SidecarSteps.ServeIs | components/sidecar_link/sidecar.cpp:197-241 | A read of the service and its answer, with whatever happens elsewhere in between, handle and answer what Serve does. |
| Recency.TouchedSet | main/extMem.cpp:19-36 | A touch brings one bank in, keeps the list free of duplicates, and drops the last entry only for a bank not in it. |
| Recency.TouchesOrder | main/extMem.cpp:11-36 | After any touches the list is newest first. |
| Recency.UsedStay | main/extMem.cpp:11-36 | If no more banks are used than fit, all banks used are in. |
| BankLayout.MapConfig | main/extMem.h:108-174 | For all 32 patterns: unmapped exactly if bit 2 is set or the scheme leaves its group to base RAM; two mapped ones have one bank exactly if their low two bits agree and, with RAMBO, their groups; and the banks are exactly 0 to 3, with RAMBO 0 to 11, or none. |
| BankLayout.UsedBanks | main/extMem.h:133-174 | A scheme maps exactly as many different banks as it has. |
| ExtBank.ExtBankPool.Init | main/extMem.h:62-127 | Refused exactly for the counts the code refuses; else all banks are zero and the recency list is what touching all mapped patterns in order leaves. |
| ExtBank.ExtBankPool.GetBank | main/extMem.cpp:8-39 | No bank's contents change; the bank returned is in SRAM and first in the list; a miss evicts one bank, a hit none; with all mapped banks in, none is evicted. |
| ExtBank.ExtBankPool.SwapIn | main/extMem.cpp:12-18 | The three buffers change places and every bank reads as before. |
| ExtBank.Exchanged | main/extMem.cpp:16-18 | Bank buffers and spare stay a permutation of the buffers allocated. |
| ExtBank.LoadedResident | main/extMem.cpp:11-24 | The recency list stays exactly the banks in SRAM. |
| ExtBank.FitsAfterInit | main/extMem.h:123-125 | If a scheme's banks fit in SRAM, all of them are in after init. |
| ExtMem.ExtMemory.constructor | main/mmu.cpp:293-310 | The tables show each pattern's bank, or base RAM. |
| ExtMem.ExtMemory.Select | main/mmu.cpp:156-176 | After a select the table in use shows the selected bank's data; contents are unchanged; the bank is in SRAM if and only if the pattern changed, it was forced, or the bank was in already. |
| ExtMem.FirstSelect | main/mmu.cpp:153-162 | With scheme XE and one to three banks in SRAM, after a start, a first select of pattern 0 leaves its bank in PSRAM. |
| BankLayout.XeLeavesOut | main/extMem.h:123-125 | Exercising all banks of that scheme leaves bank 0 out if fewer than four fit. |
| ExtMem.ExtMemory.Repair | main/mmu.cpp:163-174 | A table whose bank has moved shows it again. |
| ExtMem.ExtMemory.Run | main/mmu.cpp:156-176 | Any sequence of selects, reads and writes through the page tables has the effects and results of an array of independent flat banks, and the recency list is what touching the banks selected, in order, leaves. |
| BankWindow.LastSeen | main/mmu.cpp:156-176 | On flat banks, after any selects, reads and writes: under any PORTB value each address shows the last byte written to it under a value that shows the same memory (base RAM both, or the same bits 2 and 3 and, with RAMBO, 5 and 6), or what was there. |
| BankWindow.RunThenLook | main/mmu.cpp:156-176 | The same of any sequence of accesses through the page tables, and a look afterwards. |
| BankWindow.ShowSame | main/extMem.h:133-174 | Two PORTB values show the same memory if and only if the table gives their patterns the same bank or none. |
| BusMmu.DisabledStays | main/core1.cpp:76-133 | With every pointer on the dummy block, any accesses of core 1 leave them there, change no memory but the dummy RAM, and drive nothing. |
| BusMmu.CopyLeaves | main/mmu.h:108-115 | However core 1 runs between the pointer copies, only the four pointers it writes itself can be stale. |
| BusMmu.SaveKeeps | main/main.cpp:218-218 | The saved copy has all other pointers as they were. |
| BusSettle.ReadCycle | main/core1.cpp:92-106 | What one read cycle does to the pointers, as a whole. |
| BusSettle.WriteCycle | main/core1.cpp:111-132 | What one write cycle does: the pointers, the cartridge select, and the byte at the place mapped when it began. |
| BusSettle.TurnIs | main/core1.cpp:76-133 | The same of the step model's cycle: PORTB bit 1 picks the block at 0x8000, bit 0 and PBI bit 1 that at 0xc000, bits 2 to 6 that at 0x4000; a write selects the cartridge bank by the last address or the byte in page 0xd5. |
| BusSettle.DisableConverges | main/main.cpp:210-239 | After the copy of dummy pointers and the rest of the cycle under way, any cycles with at least one read and one write leave every pointer on the dummy block. |
| BusSettle.ReadsAlone | main/core1.cpp:92-106 | Read cycles alone never clear a stale cartridge pointer. |
| BusSettle.WritesAlone | main/core1.cpp:111-123 | Write cycles alone never clear a stale extended-memory pointer. |
| BusSettle.StaleAfterCopy | main/main.cpp:210-216 | Stale pointers are real: one that core 1 held over the copy is stored after it. |
| BusSettle.EitherOrder | main/core1.cpp:92-123 | From any stale values, a read and a write cycle in either order come to the same refreshed pointers. |
| BusSettle.RefreshStable | main/core1.cpp:92-123 | What both cycles refresh depends on core 0's tables only, and once is enough. |
| BusSettle.EnableRestores | main/main.cpp:217-239 | Saved, later copied back, with core 1 running in between both: one read and one write cycle make the pointers what core 1 makes of the original tables. |
| BusCores.BusCores.BusCycle | main/core1.cpp:76-133 | One turn of the loop, bit by bit: which pointers PORTB, the PBI register and the cartridge select put in the three blocks, where a byte is read or written, and that all else stays; and it is the cycle that the step model makes of its accesses. |
| BusCores.BusCores.SafeCopy | main/mmu.h:108-115 | All pointers are copied. |
| BusCores.BusCores.DisableBus | main/main.cpp:217-235 | The pointers and the cartridge select are saved, and the live pointers are all dummies. |
| BusCores.BusCores.Suspended | main/main.cpp:210-239 | Disabled, run through any cycles and enabled again: pointers, cartridge select and all memory but the dummy RAM are as before. |
| Glob.GlobMatches | main/cio.cpp:49-68 | The loop terminates; on text without '*' it decides the declarative wildcard relation, and on any text it does what the state machine Glob does. |
| Glob.GlobIsMatches | main/cio.cpp:49-68 | On text without '*' it decides exactly the declarative wildcard relation: one backtrack point is enough. |
| Glob.GlobRightIffNoStar | main/cio.cpp:49-68 | It is right about a text for every pattern if and only if the text has no '*'. |
| Glob.LiteralMeans | main/diskFlash.cpp:18-44 | The relation, on a pattern without a star: equal lengths, and each character is the text's or a question mark. |
| Glob.StarMeans | main/diskFlash.cpp:18-44 | And with one: what comes before the first star matches the beginning, and the rest of the pattern some end behind that. |
| Glob.NaiveRecursiveMatch | main/diskFlash.cpp:18-44 | For all text it decides the relation, with literals compared after folding. |
| Glob.FoldedMatch | main/diskFlash.cpp:34-34 | Folding while matching is matching the folded strings. |
| Glob.MatchersAgree | main/diskFlash.cpp:18-44 | The two matchers agree on upper-case input without '*' in the text. |
| SdfsMap.ReadMapChain | main/diskStitchImageSDFS.h:475-507 | It terminates on any sectors, and returns a chain if and only if there is a whole one of known maps, which it then is. |
| SdfsMap.ChainIs | main/diskStitchImageSDFS.h:475-507 | Byte by byte, what a whole chain is: distinct sectors of the disk, each with the next one's number first, 0 in the last, and behind it, but in the first, the one before's. |
| SdfsMap.EntriesAre | main/diskStitchImageSDFS.h:496-502 | And what a map lists: its words from byte 4 on, up to the first 0, 126 at most. |
| SdfsMap.BuildMap | main/diskStitchImageSDFS.h:1005-1020 | Byte by byte, little-endian: each map holds the next one's number, the one before's, and its 126 data sectors, with zeros behind the last; nothing else in the metadata changes. |
| SdfsMap.BuiltIsChain | main/diskStitchImageSDFS.h:475-507 | The parser inverts the builder for any number of data sectors. |
| SdfsNames.VisibleAtari | main/diskStitchImageSDFS.h:615-630 | An ASCII name without spaces, put into an entry, is shown as it was. |
| SdfsEntries.FindFinished | main/diskStitchImageSDFS.h:266-299 | The length in the first entry that is finished and has this map and name, or none if there is none. |
| SdfsImage.SdfsImage.Write | main/diskStitchImageSDFS.h:1309-1360 | A write stages the sector, and puts it into the host file too exactly if the sector is a file's, within its length, and no replacement of that file is pending; refused exactly off the disk, or behind the length. |
| SdfsWrite.WriteAgrees | main/diskStitchImageSDFS.h:1337-1359 | A write keeps the disk sound, and whatever is staged for a file without a pending replacement is in its host file. |
| SdfsWrite.SeenFile | main/diskStitchImageSDFS.h:1261-1307 | Then the file as the guest reads it is the host file. |
| SdfsOthers.CreateLeavesOthers | main/diskStitchImageSDFS.h:509-613 | A create of free sectors keeps the disk sound, and whatever the guest sees of any file, and of the root directory by the chain from the boot sector, it sees afterwards. |
| SdfsOthers.AppendLeavesOthers | main/diskStitchImageSDFS.h:780-933 | So does an append, of every other file. |
| SdfsOthers.ReplaceLeavesOthers | main/diskStitchImageSDFS.h:340-473 | And so does a replacement whose sectors fit. |
| SdfsDelete.DeleteLeavesOthers | main/diskStitchImageSDFS.h:1189-1256 | And so does a delete: no sector but the file's own reads differently. |
| SdfsOthers.EntriesSame | main/diskStitchImageSDFS.h:266-299 | In the directory's terms: every other file's entry leads to the contents that it led to. |
| SdfsCreate.Pigeonhole | main/diskStitchImageSDFS.h:525-541 | As many observed writes as listed sectors: the listed ones are distinct, none is a map, and each is queued. |
| SdfsCreate.CreateInvisible | main/diskStitchImageSDFS.h:509-613 | A successful create leaves every sector reading as before, except the part of the new file's last sector behind its end. |
| SdfsCreate.CreatedFile | main/diskStitchImageSDFS.h:509-613 | The guest sees the same file before and after, and the host file is what the guest sees, in whatever order the sectors were written. |
| SdfsCreate.CreateCounts | main/diskStitchImageSDFS.h:578-589 | The allocation count stays right if and only if the new file takes free sectors only. |
| SdfsAppend.GrownPart | main/diskStitchImageSDFS.h:860-888 | Each sector of the grown host file is the old one, or the queued one up to the new end. |
| SdfsAppended.AppendInvisible | main/diskStitchImageSDFS.h:780-933 | A successful append leaves every sector reading as before, except behind the new end. |
| SdfsAppended.AppendedFile | main/diskStitchImageSDFS.h:780-933 | The guest sees the same grown file before and after, and the host file is that file if and only if its old full sectors, as the guest sees them, were as the host has them. |
| SdfsBreaks.ReplaceLosesData | main/diskStitchImageSDFS.h:378-402 | An input: a replacement that lists the bitmap's sector passes all checks, the guest reads the old bitmap where it wrote the file's data, and the disk is not sound. |
| SdfsBreaks.AppendLosesData | main/diskStitchImageSDFS.h:780-933 | An input: an append of a file with a pending replacement passes all checks, and the host file is not what the guest reads. |
| SdfsBreaks.RenameLosesData | main/diskStitchImageSDFS.h:678-690 | An input: a rename of a file with a pending replacement passes its check, and the host file is not what the guest reads any more. |
| SdfsReached.CreateReached | main/diskStitchImageSDFS.h:1309-1360 | From the fresh image of a host file of one sector, the guest's writes lead to the input of CreateTakesUsed. |
| SdfsReached.ReplaceReached | main/diskStitchImageSDFS.h:1309-1360 | And, the file once reopened, to that of ReplaceLosesData, |
| SdfsReached.AppendReached | main/diskStitchImageSDFS.h:1309-1360 | to that of AppendLosesData, |
| SdfsReached.RenameReached | main/diskStitchImageSDFS.h:1309-1360 | and to that of RenameLosesData. |
| SdfsApart.CreateSound | main/diskStitchImageSDFS.h:574-611 | Reserved sectors, data and maps of different files stay apart, each with one use, over a create of free sectors. |
| SdfsApart.AppendSound | main/diskStitchImageSDFS.h:889-925 | And over an append of free sectors. |
| SdfsApart.ReplaceKeeps | main/diskStitchImageSDFS.h:422-462 | Over a replacement they stay so if and only if its sectors fit: listed once, and none another file's, the bitmap's, the root directory's, data or maps, or, of the data, other metadata. |
| SdfsParse.ImageSound | main/diskStitchImageSDFS.h:1086-1147 | And so they are in a fresh image. |
| SdfsRuns.HostsAreSeen | main/diskStitchImageSDFS.h:1309-1436 | After any sequence of writes, reopened, renamed and deleted files and commits from a fresh image, in any order: every file without a pending replacement is, as the guest reads it, its host file; a sector is in use if and only if it is boot, bitmap, root directory, data or map of something, and of one thing only; and the allocation count is right. |
| SdfsRuns.CommitsAreSeen | main/diskStitchImageSDFS.h:1389-1436 | In such a sequence, the guest sees the file of a create, an append or a replacement as the same before and after the commit, and it is the host file then, in whatever order its sectors were written. |
| SdfsRuns.ChangesAreInvisible | main/diskStitchImageSDFS.h:1369-1436 | And no commit, rename or delete shows in any other file, in the root directory or the chain that leads to it, or in any sector but those freed and the part behind the new end. |
| SdfsRuns.RootStays | main/diskStitchImageSDFS.h:1098-1103 | As long as the guest writes neither the boot sector nor the root directory's maps, the chain from the boot sector's root map leads to the root directory, whatever else happens. |
| SdfsCommits.CreateGood | main/diskStitchImageSDFS.h:509-613 | A create that goes through is a step of such a sequence, and keeps all that, if and only if none of its sectors was in use. |
| SdfsCommits.AppendGood | main/diskStitchImageSDFS.h:845-858 | An append that goes through: if and only if none of its new maps was in use. |
| SdfsCommits.AppendLooks | main/diskStitchImageSDFS.h:845-858 | Which it checks itself if there are new data sectors. |
| SdfsCommits.ReplaceGood | main/diskStitchImageSDFS.h:340-473 | A replacement that goes through: if and only if its data are listed once, are neither maps nor the bitmap's nor metadata but its own old maps, and its maps are no boot, bitmap or root directory sectors, data or maps, and no other file's maps. |
| SdfsCommits.RenameGood | main/diskStitchImageSDFS.h:660-690 | A rename that goes through: if and only if no other file has the new name on the host, and what is staged of the file is in its host file. |
| SdfsBreaks.CreateTakesUsed | main/diskStitchImageSDFS.h:543-589 | An input: a create that lists another file's sector passes all checks, makes the count wrong and takes the sector. |
| SdfsImage.SdfsImage.CommitCreate | main/diskStitchImageSDFS.h:509-613 | It goes through if and only if there are maps and data sectors that pass its checks, with the finished length read from the directory and the name not in the inventory, and then makes exactly the create's change; else the image is as before. |
| SdfsImage.SdfsImage.CommitAppend | main/diskStitchImageSDFS.h:780-933 | The same for an append. |
| SdfsImage.SdfsImage.CommitReplacement | main/diskStitchImageSDFS.h:340-473 | The same for a replacement, whose length is the finished entry's. |
| SdfsLive.CreateAsks | main/diskStitchImageSDFS.h:509-556 | What the checks of a create come to: exactly that the first closed entry of that map and name has the length, that the chain from the map lists as many sectors as the length needs, all staged, distinct and no maps, by one to that many and one more known maps, and that the name is short and neither shown nor on the host. |
| SdfsLive.AppendAsks | main/diskStitchImageSDFS.h:780-858 | The same for an append: the file as it was noted, its maps and data first in the chain, new ones as many as needed, staged, distinct and no maps; a last sector that is not full staged; with new data, none of the new sectors in use. |
| SdfsLive.ReplaceAsks | main/diskStitchImageSDFS.h:340-402 | The same for a replacement. |
| SdfsGood.GoodCreate | main/diskStitchImageSDFS.h:509-613 | For a file of any length but 0 and any number of maps, under any name of one to eight and up to three characters that is free: if its entry is closed, its maps are as buildMap makes them, and its data are staged, distinct and no maps, in whatever order, the create goes through with exactly those sectors, and the host file holds the staged bytes up to the length; no other host file changes. |
| SdfsGood.GoodAppend | main/diskStitchImageSDFS.h:693-933 | For any new length and number of new maps, noted when the entry changed: if the chain goes on as buildMap makes it, by free staged sectors, and a last sector that was not full is staged, the append goes through with exactly those; the host file keeps its bytes up to the last full sector and has the staged ones behind. |
| SdfsGood.GoodReplacement | main/diskStitchImageSDFS.h:340-473 | For any length but 0 and any number of maps: staged so, and of no other file, the replacement goes through, and the host file holds the staged bytes. |
| SdfsImage.SdfsImage.CommitDelete | main/diskStitchImageSDFS.h:1189-1256 | Exactly that host file is gone; the file is empty; exactly its data and maps are freed, and its data are nobody's; the count stays right; what is queued for bitmap and other metadata is taken over. |
| SdfsImage.SdfsImage.CommitRename | main/diskStitchImageSDFS.h:660-690 | Refused exactly if a file that is not empty is shown under the new name; else host file and entry have it, with the old contents, and no other file or host file changes. |
| SdfsImage.SdfsImage.TakeOver | main/diskStitchImageSDFS.h:591-611 | Queued bitmap and metadata sectors become the image's own, and leave the queue with the file's data. |
| SdfsAlloc.Allocator.AllocateSector | main/diskStitchImageSDFS.h:984-992 | The first free sector from the search start on, or none; the count goes with it. |
| SdfsAlloc.Allocator.AllocateSectors | main/diskStitchImageSDFS.h:994-1003 | Succeeds exactly if there is room, and hands out sectors in a row. |
| SdfsAlloc.Allocator.AllocateFile | main/diskStitchImageSDFS.h:1022-1033 | Data sectors, then maps, in a row; references and maps set; other files' left alone. |
| SdfsDirectory.BuildDirectory | main/diskStitchImageSDFS.h:1105-1121 | The header has the directory's own length and name and, for every file, in order, there is an entry in its place with status, map, length, name, extension and date. |
| SdfsDirectory.DirectoryRecord | main/diskStitchImageSDFS.h:1112-1121 | Each entry is found at its place again. |
| SdfsDirectory.BuildBitmap | main/diskStitchImageSDFS.h:1131-1135 | A bit is set if and only if its sector is free, and sector 0's never is. |
| SdfsDirectory.Boot | main/diskStitchImageSDFS.h:1137-1157 | Every field of the boot sector is read back: jump, root map, sector count, free count, bitmap place, search starts, volume name, sector size's code, version and entries a map; zeros elsewhere. |
| SdfsInit.LayoutIs | main/diskStitchImageSDFS.h:1077-1086 | Bitmap, root directory, its maps, and each file's data and maps take just as many sectors as they need. |
| SdfsFormat.Initialize | main/diskStitchImageSDFS.h:1035-1157 | Succeeds exactly if the sector count is supported and everything fits, and then makes the image. |
| SdfsParse.ImageRoundTrip | main/diskStitchImageSDFS.h:1098-1157 | Parsing the image from the boot sector, by the root map to the directory, and by each entry's chain, gives every host file's name, length and contents. |
| SdfsParse.ImageOwned | main/diskStitchImageSDFS.h:1022-1033 | In a fresh image data sectors and references belong to each other one to one, which is what the commits start from. |
| SdfsRoles.OneRole | main/diskStitchImageSDFS.h:1086-1103 | Boot sectors, bitmap, root data, root maps and each file's data and maps, one after the other, are the used sectors: none missing, none twice. |
| SdfsRoles.UsedSectors | main/diskStitchImageSDFS.h:1086-1103 | A sector is allocated if and only if it is one of these. |
| SdfsRoles.BooksAgree | main/diskStitchImageSDFS.h:1131-1147 | The bitmap that the guest reads agrees with the allocation for every sector, and the free count is the number of free sectors. |
| AtariNames.EncodeAtariFilename | main/diskStitch.h:50-65 | A name is encoded exactly if its base has 1 to 8 and its extension up to 3 allowed characters, and then folded and filled with spaces. |
| AtariLaws.DirectName | main/diskStitch.h:35-65 | Letter by letter, for a name split at its last dot: encoded exactly if it has one to eight and up to three characters, all letters, digits, _ or @; capitalized, and filled with spaces. |
| AtariNames.AtariFilenameLess | main/diskStitch.h:67-78 | One name is less if its upper-case form comes first in the dictionary, or these are equal and it comes first itself. |
| AtariNames.LessTotal | main/diskStitch.h:67-78 | Of two different host names exactly one comes first. |
| AtariNames.LessTransitive | main/diskStitch.h:67-78 | The order is transitive. |
| AtariNames.SortedUnique | main/diskStitch.h:80-86 | A set of host names has one sorted list only. |
| AtariAliases.VisibleDistinct | main/diskStitch.h:80-153 | No two host files are shown under one name. |
| AtariAliases.AliasTakesNone | main/diskStitch.h:126-151 | An alias is never the direct encoding of any host file. |
| AtariAliases.AliasInjective | main/diskStitch.h:135-141 | Aliases of different groups or numbers differ. |
| AtariAliases.OrderIndependent | main/diskStitch.h:80-153 | The name given to a host file does not depend on the order in which the files were listed. |
| AtariLaws.NameIs | main/diskStitch.h:88-151 | The first of its encoding is named directly; any other file gets the alias with number n, of 1 to 9, exactly if that is no direct encoding and as many such numbers are before it as files of its group; or none. |
| AtariLaws.AliasIs | main/diskStitch.h:127-148 | An alias is the group's base, the digit, and spaces; and its extension. |
| AtariLaws.GroupIs | main/diskStitch.h:104-124 | The group: up to seven characters kept of the base, or FILE if none are, and up to three of the extension. |
| AtariLaws.KeptPlain | main/diskStitch.h:110-122 | Letters and digits are kept, capitalized, in order, |
| AtariLaws.KeptSkips | main/diskStitch.h:110-122 | and any other character might as well not be there. |
| AtariAssign.AssignAtariFilenames | main/diskStitch.h:80-153 | Every file gets its direct encoding if it is the first with it, else the free number of its rank in its group, else none. |
| AtariAssign.AssignGroup | main/diskStitch.h:127-151 | One group's members get the numbers 1 to 9 that are not taken, in order. |
| HandleCache.CachedStorage.Open | main/diskStitch.h:217-266 | A cached file is found without asking the backend, and moves to the front; a miss opens at the backend and, if it can be cached, goes to the front, moves the others back by one and closes the last; what is open is exactly the cache and an uncached active one. |
| HandleCache.CachedStorage.Close | main/diskStitch.h:278-283 | Only an uncached active handle is closed. |
| HandleCache.CachedStorage.CloseAll | main/diskStitch.h:285-292 | Every open handle is closed, once. |
| HandleCache.CachedStorage.Run | main/diskStitch.h:217-292 | Over any calls, every transfer uses an open handle of the file that was last opened and not closed since, as without a cache. |
| HandleCache.FewOpen | main/diskStitch.h:174-180 | No more than five handles are open at a time. |
| DiskBytes.SectorFits | main/diskImage.h:13-21 | The sector of an offset contains it. |
| DiskBytes.SectorWritten | main/diskImage.h:19-21 | Writing a sector changes its stretch of the image's bytes only. |
| DiskBytes.Disk.ReadBytes | main/apt.cpp:54-79 | Refused outside the image; else the bytes are those of the image at that offset, across sectors of different sizes. |
| DiskBytes.Disk.WriteBytes | main/apt.cpp:81-108 | Refused outside the image; success changes exactly [offset, offset + length) to the buffer; a failure has written a first part of it only. |
| DiskBytes.WriteThenRead | main/apt.cpp:54-108 | A write and then a read of the same range, by the two methods: if no sector fails the buffer comes back, and all other bytes are as before. |
| AptDrives.Drives.LoadMap | main/apt.cpp:155-178 | Each slot mounts a partition if and only if the slot's bytes, field by field, say so: in use, type 0 or 3, start, count and id little-endian in their places, active, and on the disk. |
| AptDrives.Drives.Mount | main/apt.cpp:213-240 | If no sector fails, it mounts exactly if drive and partition number allow it, the MBR is signed and its entry, field by field, is of a partition on the disk; it then puts that partition on that drive, leaves the others alone, and changes nothing otherwise. |
| AptDrives.StaysInside | main/apt.cpp:422-447 | A command on a mounted drive is accepted if and only if all its sectors are of the partition, and then they are. |
| AptDrives.Drives.WriteSectors | main/apt.cpp:434-447 | A write changes those sectors to the buffer; no byte outside the partition changes, even when it fails half way. |

## Left out

- I2S, DMA, GPIO and interrupt set-up, delays, profiling and statistics: hardware and counters; the beam and the write-backs are what matters.
- `i2slink_hint`: it is in the link's machine as leaving or re-arming a window at will; its comparison of T's low byte is not modelled.
- Waiting forever in `i2slink_read`, and its immediate, waited, jump and skip counters.
- Bit errors on the wire, CRC as a polynomial, and bytes of two sessions of a writer in one ring.
- SidecarRuns.AtMostOnce: its two directions are steps of LatestValue, which LinkLatest.DeliveriesAreReads shows of one direction in one session of both ends; the steps at a restart are LatestValue's Settled and FRESH, by the assumption above.
- SidecarRuns.OkIsOwn: says of a given Ok whose it is; when one can be another command's is SidecarStale.ForeignIffRisky.
- SidecarRuns.FreshStartIsSafe: one way, for a caller who knows all earlier numbers; the condition both ways is SidecarStale.ForeignIffRisky.
- `Sidecar::probe`, `loopbackCheck` and the byte layout of the command headers: a message is its fields.
- Failing allocations in the bank pool.
- ExtBank.ExtBankPool.Init: not for a mapped scheme without any SRAM bank, for which the code would index the recency list at -1, nor for one with fewer banks than it maps, for which it would read behind its bank list.
- `mapCompy192` and `mapStockXL`, which no configuration selects; unmapping for the self test.
- ExtMem.ExtMemory.Run: a select and the page-table repair after it are one step, as the 6502 is halted between them; unmapped patterns share one block in the code and have equal tables here.
- BusMmu.DisabledStays: core 1's accesses happen in program order; bus timing, the monitor queue and the halt line are left out.
- BusCores.BusCores.Suspended: core 1 runs before, between and after the two copies, not between the single pointers of one copy; BusSettle.EnableRestores and BusSettle.DisableConverges have it run there.
- SDFS I/O failures and their rollback, host files that are not in the image, and the tracing that only warns.
- SDFS staging: which pending create, append or replacement a directory update begins, and which file a renamed or deleted entry is of, are parameters; any of them, at any time, is what is modelled.
- SDFS boot sectors 1 to 3: what lies behind their 128 bytes is taken as zero where the code copies a longer buffer.
- SdfsCreate.CreateInvisible: for listed sectors that are no boot sectors; of one the code would write up to 256 bytes from a buffer of 128. SdfsCommits.CreateGood says what follows if listed sectors are in use.
- SdfsCreate.CreatedFile: the same condition.
- SdfsRuns.CommitsAreSeen: an append of a file with a pending replacement is left out; SdfsBreaks.AppendLosesData is one, and SdfsAppended.AppendedFile has the exact condition.
- SdfsGood.GoodCreate: not of an empty file, for which buildMap makes no map, so that the entry has no first map; SdfsLive.CreateAsks has every length and any chain of maps.
- SdfsGood.GoodReplacement: the same condition.
- LinkVerdicts.StaleMeans: for a reader that begins with nothing read; LinkVerdicts.VerdictOfLap is for any.
- SdfsFormat.Initialize: host files come with their Atari names, as AtariAssign gives them, and without those that are too long; the inventory's I/O is left out.
- AtariAssign.AssignAtariFilenames: the sort is any permutation; AtariAliases.OrderIndependent asks that it is sorted and names are different.
- HandleCache.CachedStorage.Open: what the backend answers is a parameter; renaming or removing a cached file is not modelled.
- AptDrives.Drives.LoadMap: the search for the APT table through a protective MBR entry, its entry-count check, device selection and status commands.
- Glob.GlobMatches: strings have no NUL inside, and folding is ASCII.
- DOS 2.0 disk images, SMB, WiFi, HTTP, SPIFFS, the menus and the 6502 side.
