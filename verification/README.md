# Motrix: a verified model of its self-contained algorithms and lifecycle machines

This project models, in Dafny, the parts of Motrix that are algorithms or small concurrent protocols, and proves what
they are for. Each `.dfy` file is one module. A source file with state has two or three: its machine as a datatype with
steps and theorems, and its classes, whose methods take those steps.

* **File names** (`Utf8`, `Sanitizer`, `SanitizerProofs`, `DeviceNames`): the four-stage sanitizer over Unicode scalar
  values and their UTF-8 lengths.
* **Printers and their readers** (`ByteStrings`, `Decimals`, `Crc32`, `Bencode`, `BencodeProofs`, `Torrent`,
  `TorrentProofs`, `Zip`, `ZipReader`, `Canonical`, `Streams`, `BrokerFrames`, `SidecarFrames`): for each encoder a
  reader written from the format's own definition (BEP 3, PKWARE APPNOTE sections 4.3.7, 4.3.12 and 4.3.16, section 2 of
  the pairing protocol), with round trips in both directions where the format is canonical.
* **Versions and updates** (`Texts`, `Lexicographic`, `Semver`, `Precedence`, `SemverProofs`, `VersionSpelling`,
  `UpdateChannel`, `UpdateMachine`, `UpdateService`): strings are sequences of UTF-16 code units; precedence is stated
  separately, from section 11 of Semantic Versioning 2.0.0.
* **Lifecycle machines** (`WorkMachine`, `WorkProofs`, `WorkCoordinator`, `ShutdownMachine`, `ExitMachine`, `Shutdown`,
  `ChannelMachine`, `ChannelProofs`, `Preload`, `TaskRegistry`, `TaskOwners`, `TaskManager`, `PollMachine`, `PollSteps`,
  `PollProofs`, `PollOwners`, `PollRefinement`, `PollRuns`, `Polling`, `SnapLookup`, `SnapUpload`): each is a datatype
  of states with one step per call, promise reaction or arrival, an invariant kept by every step, theorems over all
  runs, and a class with the source's fields whose methods take exactly those steps. The polling loop has its steps
  twice: `PollSteps` suspends it at every await and lets everybody else act there, `PollMachine` is the net effect of a
  row that nothing disturbs, and `PollRefinement` connects the two.
* **Paths and directories** (`PathAlgebra`, `PathProofs`, `Occurrences`, `PathPolicy`, `AllowedRoots`, `Directories`,
  `DirectoryScan`): Node's POSIX path functions on strings, proved equivalent to operations on component lists, and the
  policies built on them.

## What turned out differently from the comments

* The sanitizer is documented as idempotent (`packages/finalize-fs/src/sanitize.rs:16`). It is not:
  `SanitizerProofs.NotIdempotent` gives an input, `SanitizerProofs.IdempotentIff` says exactly for which inputs it
  fails, in terms of the name itself, and two passes always suffice (`SanitizerProofs.TwoPassesSuffice`).
* The test fixture's `crc32` starts its register at zero, so what it stores is never the CRC-32 of RFC 1952, for any
  buffer (`Crc32.NeverTheStandardCrc`). It still detects every burst of up to four bytes.
* `compareSemver` is documented to answer 0 for every unparseable core. It answers 0 exactly when all components before
  the first unparseable one agree (`SemverProofs.UnparseableTie`, `SemverProofs.UnparseableCanBeOrdered`).
* A polled orphan can enter memory without its row: when the Activity runtime is disposed, `parentTaskCreated` returns
  without persisting, and a task that the engine reports as removed is silently not written
  (`PollMachine.DisposedEntersUnwritten`, `PollMachine.RemovedEntersUnwritten`). These are the only cases, in every
  interleaving (`PollProofs.EntersAfterWrite`, `PollProofs.ExemptIff`).
* A save of the whole session takes no task lock. With a snapshot from before the publication of a final status, written
  after it, it reverts the row (`PollRuns.SaveRevertsRowRun`). Up to the publication the row is exactly what was saved
  last, or committed (`PollProofs.RowWhenPublished`).
* The check for retired engine ids comes before an `await`. When the owner is removed during it, the row is adopted as a
  new task after all (`PollRuns.RemovedMeanwhileRun`). `PollOwners.RetiredWhenDecidedIff` gives the exact condition: the
  last event that concerned the id retired it.
* A notification polls its own task without waiting for a poll in flight. Both can adopt the same engine id, and then
  two tasks list it (`PollRuns.OverlappingPollsRun`). Polls one after the other never do that
  (`PollOwners.OneTaskForEachId`); `PollOwners.AdoptsTwiceIff` and `PollOwners.AlwaysExactIff` give the exact condition.
* A failing shutdown action skips nothing, with one exception: the gate's promise has no handler until it is awaited. If
  it rejects before that and the tick ends, Node ends the process, and the database is never closed
  (`ShutdownMachine.EarlyRejectionSkipsTheRest`, `ShutdownMachine.CrashIff`). The gate that the server passes
  (`src/server/index.ts:240-244`) drains with `Promise.allSettled` and never rejects.
* Startup work bypasses an admission hold, and it is the only work that does (`WorkMachine.HoldAdmitsOnlyStartup`,
  `WorkMachine.StartupRunsUnderHold`).
* A buffered preload channel delivers in order exactly when its replay runs before the first live event
  (`ChannelMachine.InOrderIff`, `ChannelMachine.LateReplayReorders`).
* The sidecar's frame writer has no 64 KiB limit while its reader has (`SidecarFrames.OversizeIsRefused`), and a stream
  cut inside a frame's length field ends like a closed one (`SidecarFrames.TruncatedTail`).

## Model

| member | source | states |
|---|---|---|
| Sanitizer.TruncateUtf8 | packages/finalize-fs/src/sanitize.rs:119-128 | the backward byte scan finds the same prefix as cutting character by character within the budget |
| Sanitizer.TruncateIsLongest | packages/finalize-fs/src/sanitize.rs:119-128 | the cut is a prefix within the byte budget, and every other prefix within it is a prefix of the cut |
| Utf8.CharIsCarried | packages/finalize-fs/src/sanitize.rs:119-128 | the octets that the scan counts carry the characters, six bits each behind the first |
| SanitizerProofs.SanitizedIsWellFormed | packages/finalize-fs/src/sanitize.rs:31-58 | every output is non-empty, at most 254 UTF-8 bytes, free of forbidden characters and of a trailing dot or space |
| SanitizerProofs.FixpointIffPortable | packages/finalize-fs/src/sanitize.rs:31-95 | a name is left unchanged exactly when it is well formed and its first-dot stem is no device name |
| SanitizerProofs.TwoPassesSuffice | packages/finalize-fs/src/sanitize.rs:31-58 | sanitizing twice gives a fixpoint, for every input |
| SanitizerProofs.IdempotentIff | packages/finalize-fs/src/sanitize.rs:16-58 | a second pass changes the result exactly when the name, its forbidden characters replaced and its end trimmed, is over 254 bytes and starts with a device name, not its stem, that only dots and spaces follow up to the cut |
| SanitizerProofs.CollapsesIffPadded | packages/finalize-fs/src/sanitize.rs:97-117 | the clamp shrinks a name to a bare device name exactly when it is over-long and begins with a device name padded up to the byte cut |
| SanitizerProofs.NotIdempotent | packages/finalize-fs/src/sanitize.rs:16-117 | `CON`, 260 spaces and `.txt` give `CON.txt`, which a second pass changes to `CON_.txt` |
| SanitizerProofs.StemOfSanitized | packages/finalize-fs/src/sanitize.rs:67-117 | the stem of an output is a device name only through that collapse |
| DeviceNames.ReservedIff | packages/finalize-fs/src/sanitize.rs:77-95 | the reserved stems are, in whatever case, the six device words and the two port words followed by a digit but zero or a superscript one, two or three |
| DeviceNames.DevicesAreMarked | packages/finalize-fs/src/sanitize.rs:67-75 | a safe name whose stem is such a word gets an underscore behind the stem, whatever its extension; every other safe name stays |
| DeviceNames.UnsafeAreUnderscores | packages/finalize-fs/src/sanitize.rs:35-65 | in every name the control and the nine other unsafe characters count as underscores |
| DeviceNames.EndIsDropped | packages/finalize-fs/src/sanitize.rs:45-47 | a dot or space at the end of a name is dropped, so the safe names decide about all |
| DeviceNames.UnchangedIff | packages/finalize-fs/src/sanitize.rs:31-95 | a name stays as it is exactly when it is not empty, has no unsafe character, ends in neither dot nor space, has at most 254 bytes and is no device |
| DeviceNames.LongNamesAreCut | packages/finalize-fs/src/sanitize.rs:97-128 | a safe name over 254 bytes keeps an extension of 1 to 24 bytes behind a last dot that is not at the start, and in front of it the longest prefix that fits, less the dots and spaces at its end |
| DeviceNames.BlankIsDownload | packages/finalize-fs/src/sanitize.rs:45-57 | of dots and spaces alone the result is `download` |
| Crc32.Register | src/test-utils/moext.ts:19-25 | the two nested loops compute the register model, for any polynomial |
| Crc32.Compute | src/test-utils/moext.ts:18-27 | started at zero and inverted by the final exclusive or, that is the checksum |
| Crc32.StateOfConcat | src/test-utils/moext.ts:18-27 | the register over a concatenation is the second part resumed from the register of the first |
| Crc32.StateInjective | src/test-utils/moext.ts:20-25 | over one buffer different starting registers end in different registers |
| Crc32.BurstChangesChecksum | src/test-utils/moext.ts:18-27 | buffers of one length that differ, and only inside four consecutive bytes, have different checksums |
| Crc32.NeverTheStandardCrc | src/test-utils/moext.ts:19-26 | the checksum differs from the CRC-32 of RFC 1952 on every buffer |
| ByteStrings.LittleEndianAt | src/test-utils/moext.ts:33-87 | in a little-endian field byte `i` is the digit of weight 256 to the power `i` |
| BencodeProofs.DecodeEncode | src/test-utils/bt-storage.ts:9-28 | a BEP 3 reader recovers the value, objects in key order, and all bytes that follow, for every value with distinct keys |
| BencodeProofs.PrefixFree | src/test-utils/bt-storage.ts:9-28 | no encoding continues another, and equal encodings carry equal values |
| BencodeProofs.EncodeDecode | src/test-utils/bt-storage.ts:9-28 | the strict reader accepts only encodings: encoding what it read gives the bytes back |
| BencodeProofs.SortAscends | src/test-utils/bt-storage.ts:23-25 | sorting entries with distinct keys gives strictly ascending keys |
| BencodeProofs.SortPermutes | src/test-utils/bt-storage.ts:23-25 | sorting keeps exactly the same entries |
| TorrentProofs.KeyOrderIsByteOrder | src/test-utils/bt-storage.ts:23-25 | the key order is dictionary order on bytes |
| TorrentProofs.AcceptedInByteOrder | src/test-utils/bt-storage.ts:21-27 | whatever a reader accepts has its keys in dictionary order on bytes |
| Torrent.PieceHashes | src/test-utils/bt-storage.ts:35-42 | the offset loop hashes exactly the pieces, in order, for any positive piece length |
| Torrent.PiecesCover | src/test-utils/bt-storage.ts:37-40 | the pieces number ceil(n / pieceLength), concatenate to the data, and all but the last are full |
| Torrent.StorageTorrent | src/test-utils/bt-storage.ts:30-58 | the torrent is the encoding of its object; single-file mode without a file fails |
| Torrent.TorrentReadsBack | src/test-utils/bt-storage.ts:43-57 | a BEP 3 reader recovers the whole torrent object |
| TorrentProofs.TorrentFields | src/test-utils/bt-storage.ts:43-57 | a reader finds `info` alone, and in it by value the name or `bundle`, the piece length, the hashes one behind the other, and the total length or the files in order, each with its length and the components of its path |
| Torrent.PiecesStringLength | src/test-utils/bt-storage.ts:36-47 | the pieces string holds twenty bytes for each of the ceil(n / pieceLength) pieces |
| Torrent.LengthsAddUp | src/test-utils/bt-storage.ts:48-55 | the length fields of a multi-file torrent add up to the hashed data |
| Zip.MakeZip | src/test-utils/moext.ts:29-89 | the buffers concatenate to the archive of the entries; in its output every entry stands with the inverted zero-started register of its octets in the checksum words of both headers; a count, size or offset that does not fit its field throws |
| Zip.EmitEntries | src/test-utils/moext.ts:33-75 | through the loop the offset equals the local bytes emitted so far and every directory entry names its record's start |
| ZipReader.ReadArchive | src/test-utils/moext.ts:29-89 | a reader that finds the end record, walks the directory and follows each offset recovers exactly the entries, in order |
| ZipReader.MakeZipReadsBack | src/test-utils/moext.ts:29-89 | names, data and attribute words read back as they were given, and each checksum word is the zero-started register of the entry's octets, inverted |
| ZipReader.ArchiveInjective | src/test-utils/moext.ts:29-89 | different contents never give the same archive |
| ZipReader.BurstShows | src/test-utils/moext.ts:18-75 | two archives of which the data of one entry differ only inside four consecutive bytes carry different checksum words for it |
| ZipReader.WellFormedRead | src/test-utils/moext.ts:38-74 | a directory entry that stands in a file whose record stands where it says is read back |
| Canonical.EncodeBytes | packages/native-host/src/canonical.rs:21-26 | the extended vector is the length in eight little-endian bytes and then the bytes |
| Canonical.EncPrefixFree | packages/native-host/src/canonical.rs:21-26 | what follows an encoded byte string cannot change where it ends |
| Canonical.BigEndianKeepsOrder | packages/native-host/src/canonical.rs:36-43 | byte-lexicographic order of big-endian encodings is numeric order |
| ByteStrings.BigEndianAt | packages/native-host/src/canonical.rs:36-43 | in a big-endian field the last byte but `i` is the digit of weight 256 to the power `i` |
| Canonical.FieldsReadBack | packages/native-host/src/canonical.rs:12-43 | a structure of any number of fields decodes uniquely, whatever follows it |
| Canonical.ReadFieldsAreEncoded | packages/native-host/src/canonical.rs:12-43 | the reader accepts nothing but encodings of structures with the given kinds of fields |
| Canonical.FieldsPrefixFree | packages/native-host/src/canonical.rs:12-43 | structures with the same kinds of fields never share an encoding, even followed by other bytes |
| Canonical.EncodableIffAscii | packages/native-host/src/canonical.rs:28-34 | a structure has an encoding exactly when its text fields are ASCII |
| Canonical.KindsMatter | packages/native-host/src/canonical.rs:21-43 | across different kinds of fields encodings do collide |
| Canonical.TicketCanonical | packages/native-host/src/ticket.rs:75-93 | the extended buffer is the encoding of the ticket's eight fields; non-ASCII strings panic |
| Canonical.TicketLayout | packages/native-host/src/ticket.rs:75-93 | the fields stand in this order: domain tag, two version words, generation, browser, caller, expiry, binding key |
| Canonical.TicketInjective | packages/native-host/src/ticket.rs:71-93 | the MAC input determines every ticket input |
| BrokerFrames.ReadBrokerMessage | packages/native-host/src/broker_protocol.rs:89-118 | what is read, how far, and which of the five errors it ends with, for every stream |
| BrokerFrames.DecodeBrokerMessageExact | packages/native-host/src/broker_protocol.rs:189-198 | reading through a cursor and refusing what is left over |
| BrokerFrames.WriteBrokerMessage | packages/native-host/src/broker_protocol.rs:154-181 | a body above 64 KiB or one that does not serialize writes nothing; otherwise exactly one frame is appended |
| BrokerFrames.EncodeBrokerMessage | packages/native-host/src/broker_protocol.rs:183-187 | encoding succeeds exactly for a body of at most 64 KiB that serializes, and gives its frame |
| BrokerFrames.AcceptsExactlyFrames | packages/native-host/src/broker_protocol.rs:89-198 | exact decoding accepts exactly the frames of at most 64 KiB whose body parses, with that body's value |
| BrokerFrames.DecodesEncoded | packages/native-host/src/broker_protocol.rs:154-198 | decoding what the encoder produced gives the value back |
| BrokerFrames.FramesAreExact | packages/native-host/src/broker_protocol.rs:89-198 | a frame with bytes missing is an I/O error, with bytes added it is refused |
| BrokerFrames.FirstWrongField | packages/native-host/src/broker_protocol.rs:89-118 | the first wrong field of a stream decides the error: magic, version, size, missing body; otherwise the body is read and no more |
| BrokerFrames.HeaderOrShort | packages/native-host/src/broker_protocol.rs:89-95 | a stream that ends within its header is an I/O error, and every other has those fields |
| SidecarFrames.ReadFrame | packages/finalize-fs/src/protocol.rs:274-291 | one frame is consumed, or the stream ends, or it fails as specified |
| SidecarFrames.WriteFrame | packages/finalize-fs/src/protocol.rs:293-300 | one frame is appended; only a length of 32 bits or more is refused |
| SidecarFrames.Serve | packages/finalize-fs/src/main.rs:15-27 | the request loop hands over exactly the payloads of the stream up to its end or first failure |
| SidecarFrames.SessionReadsBack | packages/finalize-fs/src/protocol.rs:274-300 | payloads of up to 64 KiB come back in order and reading continues with what follows |
| SidecarFrames.CompleteSession | packages/finalize-fs/src/protocol.rs:274-300 | a stream of complete frames yields its payloads and then a clean end |
| SidecarFrames.TruncatedTail | packages/finalize-fs/src/protocol.rs:274-291 | a truncated last frame never yields a payload: a clean end within the length field, an error after it |
| SidecarFrames.OversizeIsRefused | packages/finalize-fs/src/protocol.rs:281-300 | a written frame above 64 KiB ends the session with an error after everything before it |
| SidecarFrames.ReadsOnlyFrames | packages/finalize-fs/src/protocol.rs:274-291 | what was read is what the stream holds, and a clean end leaves fewer than four bytes |
| Semver.CompareSemver | src/shared/semver.ts:28-55 | the two loops with early returns compute the comparison that the theorems below are about |
| SemverProofs.Antisymmetric | src/shared/semver.ts:28-55 | swapping the arguments negates the result, for all strings |
| SemverProofs.RefinesPrecedence | src/shared/semver.ts:14-55 | on strings whose first three core parts are numeric or absent the result is section 11 precedence: equal, lower or higher |
| Precedence.LowerTotal | src/shared/semver.ts:1-5 | precedence is irreflexive, and of two different versions one is lower |
| Precedence.LowerTransitive | src/shared/semver.ts:1-5 | precedence is transitive |
| SemverProofs.Transitive | src/shared/semver.ts:28-55 | so the comparison is a transitive total preorder on those strings |
| SemverProofs.TiesAreNotTransitive | src/shared/semver.ts:1-5 | with unparseable cores it is none |
| SemverProofs.UnparseableTie | src/shared/semver.ts:31-36 | with an unparseable core the answer is 0 exactly when all earlier components agree |
| SemverProofs.UnparseableCanBeOrdered | src/shared/semver.ts:1-36 | `2.x` is above `1` although its core does not parse |
| VersionSpelling.MissingIsZero | src/shared/semver.ts:28-36 | `1.2` ties and compares like `1.2.0`, whatever follows the core: a missing component is zero |
| VersionSpelling.LeadingZerosAreIgnored | src/shared/semver.ts:14-26 | a zero in front of a numeral of the core changes no comparison |
| VersionSpelling.FourthIsIgnored | src/shared/semver.ts:31-36 | neither does a fourth component or any after it |
| UpdateChannel.StrictIffCut | src/shared/app-update-channel.ts:3-4 | the strict pattern matches exactly the strings whose cut into pieces is well formed, and in one way only |
| UpdateChannel.PreIdentifierIff | src/shared/app-update-channel.ts:3-4 | a pre-release part is one or more digits, letters and hyphens, but no numeral with leading zeros |
| UpdateChannel.AllowedIff | src/shared/app-update-channel.ts:7-18 | exactly releases are allowed on both channels, and `beta` pre-releases on the beta channel |
| UpdateChannel.StrictTie | src/shared/semver.ts:28-55 | strict versions tie exactly when they are the same string up to build metadata |
| UpdateMachine.RunKeeps | src/server/app-update-service.ts:62-155 | the invariant of the service holds after every sequence of calls and completions |
| UpdateMachine.Reachable | src/server/app-update-service.ts:62-155 | the phase is checking exactly while a check is pending, checks in flight have distinct generations, and an offered version is allowed on the selected channel and above the current one |
| UpdateMachine.StaleCompletionIsInert | src/server/app-update-service.ts:81-139 | a check left behind by a channel change has no effect when it completes, whatever happened in between |
| UpdateMachine.ChannelChangeIsIdle | src/server/app-update-service.ts:81-88 | after any run another channel leaves the service idle on it with nothing pending and the pending check aborted; the same channel changes nothing |
| UpdateMachine.AbandonedCheckIsInert | src/server/app-update-service.ts:81-139 | in any run a check under way when the channel changed changes nothing but the list of flights when it comes back, whatever it brings |
| UpdateMachine.PendingCanFinish | src/server/app-update-service.ts:90-141 | a pending check still has its flight, and its completion ends it |
| UpdateMachine.CheckStarts | src/server/app-update-service.ts:90-107 | a check without a pending one starts a flight of its own for the present channel, under a generation no flight had; with a pending one it starts nothing |
| UpdateService.ReadMetadata | src/server/app-update-service.ts:35-51 | the chunk loop returns the whole body, unless it is over 256 KiB |
| UpdateService.ServerUpdateService.SetChannel | src/server/app-update-service.ts:81-88 | another channel bumps the generation, aborts, drops the promise and returns to idle; the same one does nothing |
| UpdateService.ServerUpdateService.Check | src/server/app-update-service.ts:90-141 | a second caller shares the pending promise; otherwise a fresh generation starts |
| UpdateService.ServerUpdateService.Complete | src/server/app-update-service.ts:101-139 | only the current generation changes the state, only its failure rejects, and a rejection is always emitted as an error state |
| WorkMachine.StepKeeps | src/main/main-process-work-coordinator.ts:30-99 | every call and reaction keeps the coordinator's invariant |
| WorkMachine.EveryOperationAccountedFor | src/main/main-process-work-coordinator.ts:50-57 | in every reachable state an operation waits on a hold, was admitted exactly once, or was refused |
| WorkMachine.FatesMove | src/main/main-process-work-coordinator.ts:50-57 | no operation is dropped, revived or started twice, and a waiting one moves only by its own wake-up |
| WorkMachine.HoldAdmitsOnlyStartup | src/main/main-process-work-coordinator.ts:30-57 | under a hold exactly the first startup is admitted, and nothing through `run` |
| WorkMachine.StartupRunsUnderHold | src/main/main-process-work-coordinator.ts:30-80 | a run in which an ordinary operation waits under a hold while the startup goes ahead |
| WorkMachine.HeldDrainLasts | src/main/main-process-work-coordinator.ts:59-80 | once drained under a hold the tracker stays empty while the hold lasts and startup does not begin |
| WorkMachine.StaleReleaseIsInert | src/main/main-process-work-coordinator.ts:69-72 | a late or repeated release changes nothing, so it never clears a newer hold |
| WorkMachine.IncomingIff | src/main/main-process-work-coordinator.ts:52-77 | incoming work is reported exactly when the log of arrivals has a blocking operation under that hold |
| WorkProofs.IncomingFromEvents | src/main/main-process-work-coordinator.ts:50-77 | from the calls alone: after every run an operation blocks exactly if the call that created it said so, and a preparation reports incoming work exactly if blocking work was run or woken while its hold was active |
| WorkProofs.RunReports | src/main/main-process-work-coordinator.ts:52-77 | under a hold a blocking call sets its flag, and another leaves it as it was |
| WorkMachine.ReleasedGoesOn | src/main/main-process-work-coordinator.ts:51-57 | a released operation can always go on: into the tracker, under a newer hold, or into refusal |
| WorkMachine.BarrierCause | src/main/main-process-work-coordinator.ts:33-42 | the startup barrier is resolved once, by the end of startup or by a stop before it |
| WorkMachine.StopIsFinal | src/main/main-process-work-coordinator.ts:86-93 | after a stop nothing is ever admitted again |
| WorkMachine.DrainedMeansSettled | src/core/inspector-activity/async-work-tracker.ts:24-35 | when the final drain is over, so is every admitted operation |
| WorkCoordinator.MainProcessWorkCoordinator.Run | src/main/main-process-work-coordinator.ts:50-57 | takes the machine's step and keeps its invariant; under a hold it makes incoming work reported exactly if it was before or the call blocks |
| WorkCoordinator.MainProcessWorkCoordinator.PrepareForPowerAction | src/main/main-process-work-coordinator.ts:60-80 | gives a fresh hold, or fails while one is active or after a stop |
| WorkCoordinator.MainProcessWorkCoordinator.Release | src/main/main-process-work-coordinator.ts:69-72 | clears the hold only if it is the active one |
| WorkCoordinator.MainProcessWorkCoordinator.StartStartup | src/main/main-process-work-coordinator.ts:30-44 | later callers share the first startup |
| WorkCoordinator.MainProcessWorkCoordinator.StopAndDrain | src/main/main-process-work-coordinator.ts:86-93 | releases the hold, settles the barrier if startup never began, and returns the one final drain |
| ShutdownMachine.OrderKept | src/server/shutdown.ts:31-112 | at every point of every run no action has started twice, and none before everything that must precede it is over |
| ShutdownMachine.CancelsBeforeWaiting | src/server/shutdown.ts:68-100 | every given teardown that can cancel work has been started before the sequence waits for any of them, or stops the session or the engine: they start together |
| ShutdownMachine.NeverStuck | src/server/shutdown.ts:39-110 | once everything started has settled, some wrapper or the sequence can go on |
| ShutdownMachine.Progress | src/server/shutdown.ts:37-110 | every settling, reaction and segment brings the end nearer |
| ShutdownMachine.Complete | src/server/shutdown.ts:39-110 | at the end everything given has run once and every failure has been reported once |
| ShutdownMachine.FailuresSkipNothing | src/server/shutdown.ts:47-53 | runs that differ only in which actions failed take the same steps, as long as neither is cut short |
| ShutdownMachine.CrashIff | src/server/shutdown.ts:55-102 | a run is cut short exactly when a tick ends while the gate's promise has rejected and is not awaited yet |
| ShutdownMachine.LateGateIsSafe | src/server/shutdown.ts:55-102 | so nothing cuts a run short if the gate does not reject before it is awaited; it may throw synchronously |
| ShutdownMachine.EarlyRejectionSkipsTheRest | src/server/shutdown.ts:55-102 | wherever the gate is not settled and not awaited yet, its rejection and the end of the tick end everything, with the database open |
| ShutdownMachine.CrashingRun | src/server/shutdown.ts:55-66 | such a run from the call on: only the gate and the flush ever start |
| ShutdownMachine.CanFinishIff | src/server/shutdown.ts:37-110 | from every state of a called shutdown the end can be reached exactly if the process has not crashed |
| ExitMachine.ExitsOnce | src/server/shutdown.ts:140-148 | however often an exit is requested one callback is queued, and it exits at most once, although callbacks run whenever they can |
| ExitMachine.ExitsWithHighest | src/server/shutdown.ts:133-149 | the process exits once, after the whole shutdown, with the highest code requested before |
| ExitMachine.CanExit | src/server/shutdown.ts:133-150 | wherever an exit has been requested and the process has not crashed it can still exit |
| Shutdown.ServerShutdown.Call | src/server/shutdown.ts:37-66 | the first call gates, flushes or starts the teardowns; later calls do nothing |
| Shutdown.ServerShutdown.React | src/server/shutdown.ts:47-53 | a wrapper reports its action's failure and is over either way |
| Shutdown.ServerShutdown.EndTick | src/server/shutdown.ts:55-102 | the process ends if the gate's rejection has no handler |
| Shutdown.ServerShutdown.Resume | src/server/shutdown.ts:68-108 | the code between two awaits takes the machine's step |
| Shutdown.ExitCoordinator.Request | src/server/shutdown.ts:140-147 | raises the requested code; only without an earlier promise is a callback queued |
| ChannelMachine.OneListener | src/preload/preload.ts:86-139 | never more than one native listener; the shared one exactly while somebody is registered; until the first subscription the buffer is the last 32, or the last 1, events |
| ChannelMachine.EveryLog | src/preload/preload.ts:117-184 | buffered events reach the first subscription alone, in one piece and at most once; later events reach exactly the subscriptions registered when they are sent |
| ChannelProofs.ReplayOutcome | src/preload/preload.ts:117-181 | in every run, by its events: the replay of the first subscription is skipped exactly if it was removed before its microtask, or the channel keeps the latest value and something was sent in between; otherwise its log holds all that was kept in one piece, between what was sent before and after |
| ChannelProofs.LiveOnly | src/preload/preload.ts:117-152 | every other subscription sees exactly the events sent from its registration to its removal, in order |
| ChannelProofs.MicrotaskOutcome | src/preload/preload.ts:172-180 | what the microtask of a subscription does, by what was sent since its registration |
| ChannelProofs.KeptEvents | src/preload/preload.ts:93-110 | what is kept before the first subscription: the last event, or the last 32 in order |
| ChannelMachine.RemovedSeesNothing | src/preload/preload.ts:144-152 | a removed subscription sees nothing more, its queued replay included |
| ChannelMachine.InOrderIff | src/preload/preload.ts:166-181 | a subscription sees its events in order exactly when its replay came before any live event |
| ChannelMachine.LatestInOrder | src/preload/preload.ts:86-181 | on replay-latest channels no older value follows a newer one, in any interleaving |
| ChannelMachine.PromptInOrder | src/preload/preload.ts:117-181 | with microtasks before the next event every channel delivers in order |
| ChannelMachine.LateReplayReorders | src/preload/preload.ts:166-181 | without that a buffered channel can deliver the second event before the first |
| ChannelMachine.StepKeeps | src/preload/preload.ts:86-184 | every send, subscription, removal and microtask keeps the channel's invariant |
| Preload.Preload.Receive | src/preload/preload.ts:93-130 | the attached listener runs, and other channels keep their state |
| Preload.Preload.On | src/preload/preload.ts:117-184 | an undeclared channel throws, a registered callback gets its subscription back, a new one is registered |
| Preload.Preload.Remove | src/preload/preload.ts:144-152 | the second removal does nothing; the last one detaches the shared listener |
| Preload.Preload.RunMicrotask | src/preload/preload.ts:172-180 | replays everything buffered, or skips it exactly if the subscription was removed or a newer value arrived on a replay-latest channel |
| TaskRegistry.SetKeeps | src/core/task/task-manager.ts:113-154 | after `set` each engine id of the task leads to it and is not retired, and index and shield stay consistent |
| TaskRegistry.RemovedAreShielded | src/core/task/task-manager.ts:164-172 | the engine ids of a removed task have no owner and are retired, however full the shield was |
| TaskRegistry.JustRetiredStay | src/core/task/task-manager.ts:233-241 | evicting the oldest never evicts ids that were retired together |
| TaskOwners.SetExactIff | src/core/task/task-manager.ts:113-154 | `set` keeps one task for each engine id exactly if no other task owns an id of the new one |
| TaskOwners.SetStanding | src/core/task/task-manager.ts:113-154 | exactly who owns an id after `set`, and whether it is retired |
| TaskOwners.RemoveStanding | src/core/task/task-manager.ts:164-172 | the same for `remove` |
| TaskOwners.EvictedIff | src/core/task/task-manager.ts:233-241 | a retired id leaves the shield exactly when 4096 ids have been retired after it |
| TaskManager.TaskManager.Set | src/core/task/task-manager.ts:62-154 | takes the registry's step |
| TaskManager.TaskManager.Remove | src/core/task/task-manager.ts:164-172 | takes the registry's step and says whether there was a task |
| PollSteps.RunKeeps | src/server/index.ts:992-1092 | in every state of every run of poll segments, disposals, saves and other operations, between the halves of each commit: every task that is not exempt has its row, and every final status was written with its occurrence before it was published |
| PollProofs.TurnsAfterWrite | src/core/task/actions/shared.ts:330-343 | in the state before an existing task turns Completed or Error in memory, its row has been written and its occurrence is on disk |
| PollProofs.RowWhenPublished | src/core/task/actions/shared.ts:332-342 | between the write and the publication the row is exactly the status that a session save wrote last, or the committed one |
| PollProofs.SaveRevertsRow | src/core/session/session-manager.ts:588-602 | a save that saw the status before the publication and is written after it reverts the row, wherever a commit is about to publish |
| PollRuns.SaveRevertsRowRun | src/core/session/session-manager.ts:588-602 | such a run from the start |
| PollProofs.EntersAfterWrite | src/server/index.ts:1056-1072 | in the state before a task enters memory its row is on disk, exactly unless it is exempt |
| PollProofs.ExemptIff | src/core/inspector-activity/task-inspector-activity-runtime.ts:485-497 | a task is exempt exactly when its adoption is decided while the runtime is disposed or for a removed row |
| PollProofs.ApartOnlyBy | src/core/task/actions/shared.ts:330-343 | the four ways, and no other, in which a final status and its row come to differ |
| PollProofs.RowIsAhead | src/core/task/actions/shared.ts:332-342 | from one final status to another they differ between the write and the publication, with the occurrence on disk, and agree afterwards |
| PollProofs.Reachable | src/server/index.ts:992-1092 | what this comes to in every state reached from the start |
| PollProofs.CurrentIffUntouched | src/server/index.ts:1035 | a suspended commit finds its task current exactly if nobody stored or removed it in the meantime |
| PollProofs.StaleCommitsNothing | src/core/task/actions/shared.ts:330-331 | then it goes on to write, and otherwise it changes nothing at all |
| PollOwners.StandingMoves | src/core/task/task-manager.ts:62-172 | exactly how each event changes the owner and the retirement of an id that the shield holds |
| PollOwners.StandingIs | src/server/index.ts:1003-1015 | over any events while a poll is suspended the last one that concerns an id decides about its owner and its retirement |
| PollOwners.RetiredWhenDecidedIff | src/server/index.ts:1003-1015 | where a row is decided its id is retired exactly if the last event during `observe` that concerned it retired it, eviction aside, and the row is adopted exactly if that left no owner |
| PollProofs.RemovedMeanwhileIsMintedAgain | src/server/index.ts:1003-1072 | a row whose owner is removed during `observe` is adopted as a new task |
| PollRuns.RemovedMeanwhileRun | src/server/index.ts:1003-1072 | such a run from the start |
| PollRefinement.PollRefines | src/server/index.ts:992-1092 | an undisturbed poll, segment by segment, has the net effect of the rows in order, up to one that throws, and publishes once if something changed |
| PollRefinement.Progress | src/server/index.ts:992-1092 | every segment brings the poll nearer to its end |
| PollMachine.TerminalIsDurable | src/core/task/actions/shared.ts:318-349 | over one undisturbed row, an existing task turns Completed or Error only together with its row and its occurrence |
| PollMachine.EntryIsDurableIff | src/core/inspector-activity/task-inspector-activity-runtime.ts:485-497 | over one undisturbed row, a task that enters memory has its row exactly when the runtime is not disposed and the row is not a removed one |
| PollMachine.DisposedEntersUnwritten | src/core/inspector-activity/task-inspector-activity-runtime.ts:489 | a disposed runtime lets an unknown engine task into memory alone |
| PollMachine.RemovedEntersUnwritten | src/core/session/session-manager.ts:424-434 | so does any runtime for a row reported as removed |
| PollMachine.PutGoesToOwner | src/server/index.ts:1015-1072 | a row changes the owner of its engine id, or mints a task for one that has none |
| PollMachine.RetiredIsIgnored | src/server/index.ts:1003-1008 | rows of retired engine ids change nothing |
| PollMachine.FailedWriteLeavesAll | src/server/index.ts:1047-1071 | a failed write leaves memory and disk as they were, non-terminal updates aside |
| PollMachine.RetryCommits | src/server/index.ts:1047-1049 | the next poll of the row commits the final status that the failed one could not |
| PollMachine.RetryAdopts | src/server/index.ts:1056-1072 | the next poll of the row adopts the task that the failed one could not, with its row |
| PollMachine.DirtyIffChanged | src/server/index.ts:1017-1021 | a row counts as a change exactly when it changes what is in memory (what it stores: RowShows) |
| PollMachine.RowShows | src/server/index.ts:1015-1053 | the owner of a row gets exactly the status and detail that the merge gives, and counts as a change exactly if one of them differs; a new final status that cannot be written leaves the old task |
| PollMachine.RowMints | src/server/index.ts:1056-1073 | a row without an owner mints exactly the task it describes, or nothing if that cannot be written |
| PollMachine.RowFinishes | src/server/index.ts:1011-1014 | a finished direct download becomes its completed self with its row and occurrence, or stays as it is |
| PollMachine.PollShows | src/server/index.ts:992-1092 | at the end of a poll memory shows the last row of every task, and a change in it is published |
| PollOwners.OneTaskForEachId | src/server/index.ts:992-1092 | over any sequence of polls, whatever their rows and failures, no two tasks in memory list one engine id |
| PollOwners.ExactIff | src/server/index.ts:992-1092 | a step of any run keeps that exactly if it publishes no id that another task owns |
| PollOwners.AlwaysExactIff | src/server/index.ts:992-1092 | a whole run keeps it at every point exactly if every publication was of that kind |
| PollOwners.AdoptsTwiceIff | src/server/index.ts:1056-1073 | an adoption gives an id a second task exactly if the last event that concerned the id while it waited gave it an owner |
| PollMachine.AdoptedOnce | src/server/index.ts:1015-1073 | two rows of one engine id, handled one after the other, give one task |
| PollProofs.OverlappingPollsAdoptTwice | src/core/engine/aria2/polling-scheduler.ts:125-137 | when two overlapping polls adopt one id both tasks stay, and the second to be published owns it |
| PollRuns.OverlappingPollsRun | src/core/engine/aria2/polling-scheduler.ts:125-137 | such a run from the start |
| Polling.PollHandler.HandlePolledTasks | src/server/index.ts:992-1092 | the loop runs the segments to the end; undisturbed it handles rows in order, stops at one that throws, publishes once if something changed, and leaves memory showing what the merge gives for the last row of every task |
| Polling.PollHandler.Resume | src/server/index.ts:997-1072 | the code between two awaits takes the machine's step |
| Polling.PollHandler.Commit | src/core/task/actions/shared.ts:330-343 | one segment at a time: the staleness check against the registry, the write, the publication, the delivery |
| SnapLookup.ListRevisions | scripts/upload_snap_revision.py:24-46 | no address is fetched twice, at most 100 are, and a result comes from a whole chain |
| SnapLookup.WalkCollects | scripts/upload_snap_revision.py:24-46 | the result is exactly the revisions on the pages of the chain, one for each identity |
| SnapLookup.ListsIff | scripts/upload_snap_revision.py:24-46 | the listing succeeds exactly when the Store serves a chain of at most 100 distinct pages about this snap that agree, and then it is what stands on them |
| SnapLookup.NothingMeansAbsent | scripts/upload_snap_revision.py:24-53 | a lookup that finds nothing has read every page of the chain and none holds the digest |
| SnapLookup.FoundMeansOnly | scripts/upload_snap_revision.py:49-59 | a found revision is the only one on the pages with the digest and has the right metadata |
| SnapLookup.LookupIff | scripts/upload_snap_revision.py:49-59 | on a listing that agrees the lookup finds exactly the one revision with the digest if size, architecture, version, confinement and grade are right, nothing exactly if there is none, and fails exactly if there are two or the metadata is wrong |
| SnapLookup.LookupRevision | scripts/upload_snap_revision.py:24-59 | listing and matching is the lookup that these results are about |
| SnapUpload.Reconciler.Run | scripts/upload_snap_revision.py:62-88 | the method does what the run specification says |
| SnapUpload.AtMostOneAccepted | scripts/upload_snap_revision.py:62-88 | over any runs with lost responses and failures the bytes are accepted at most once, if reads show accepted uploads |
| SnapUpload.StaleReadsUploadAgain | scripts/upload_snap_revision.py:62-88 | that assumption is needed |
| SnapUpload.SuccessIsVerified | scripts/upload_snap_revision.py:64-87 | a successful run returns a ready revision that one of its lookups found |
| SnapUpload.SucceedsIff | scripts/upload_snap_revision.py:62-88 | a run succeeds exactly when the first lookup finds a ready revision, or the upload was sent and the first of the four lookups after it that finds one finds it ready, saves permitting |
| SnapUpload.AppearsInTime | scripts/upload_snap_revision.py:73-87 | a revision that appears in one of those, after failures and empty answers only, is the result, and the saved states say so |
| SnapUpload.FoundAtOnce | scripts/upload_snap_revision.py:62-70 | a revision that the first lookup finds is saved as existing, nothing is sent, and it is the result if it is ready |
| SnapUpload.NeverAppears | scripts/upload_snap_revision.py:73-88 | with none in the four the run ends unresolved |
| PathAlgebra.ResolveIsPath | src/server/download-path-policy.ts:57-65 | whatever the string, its resolution has no `.`, `..` or empty component (which one it is: the PathProofs rows) |
| PathProofs.ResolveName | src/server/download-path-policy.ts:57-65 | a string continued by a slash and a real name resolves to its resolution with that name appended |
| PathProofs.ResolveUp | src/server/download-path-policy.ts:57-65 | continued by `/..` it loses its last component, and nothing is above the root |
| PathProofs.ResolveIgnores | src/server/download-path-policy.ts:57-65 | an empty or `.` component, inserted or removed anywhere, changes nothing |
| PathProofs.ResolveTrailing | src/server/download-path-policy.ts:57-65 | a directory named with a trailing slash is the same directory |
| PathProofs.OnlyResolve | src/server/download-path-policy.ts:57-65 | these equations leave one function on absolute strings |
| PathProofs.JoinIsResolve | src/server/download-path-policy.ts:162-165 | joining is resolving the path, a slash and the string |
| PathAlgebra.ResolveShow | src/server/download-path-policy.ts:57-65 | resolving the string of a path gives the path back |
| PathAlgebra.JoinRelative | src/server/download-path-policy.ts:162-165 | joining a path with the relative path to another leads to that other |
| PathAlgebra.InsideIffPrefix | src/server/download-path-policy.ts:47-55 | the textual containment test holds exactly when the root's components are a prefix |
| PathPolicy.ParseAllowedSaveDirs | src/server/download-path-policy.ts:67-83 | the distinct resolved roots in first-appearance order; one relative entry refuses all |
| AllowedRoots.RootsIff | src/server/download-path-policy.ts:67-83 | the roots are the resolutions of the trimmed entries that are not blank, and they are refused exactly if one of these is not absolute or holds a null |
| AllowedRoots.TrimIs | src/server/download-path-policy.ts:67-83 | trimming takes the white space of ECMAScript off both ends, and none is left there |
| PathPolicy.AbsoluteIff | src/server/download-path-policy.ts:57-65 | a path is readable exactly if it starts with a slash and holds no null, and then it is resolved |
| PathPolicy.Resolving | src/server/download-path-policy.ts:147-178 | the reassigned candidate and roots are those of the specification |
| PathPolicy.ResolvesIff | src/server/download-path-policy.ts:147-178 | a request is resolved exactly when it lies under some configured or some canonical root |
| PathPolicy.AliasChosen | src/server/download-path-policy.ts:152-165 | a request outside every configured root is seen through the root with the deepest canonical path that contains it, the first in the list of several |
| PathPolicy.TakenAsIs | src/server/download-path-policy.ts:147-151 | a request under a configured root, or with no roots, is taken as it is |
| PathPolicy.ResolvedUnderRoots | src/server/download-path-policy.ts:147-178 | the candidate keeps the request below its root, and the matching roots are all that contain it |
| PathPolicy.AuthorizedUnderOneRoot | src/server/download-path-policy.ts:180-216 | an authorised directory is the requested one, and one single root contains both its path and its canonical path, and no longer one does |
| PathPolicy.EscapesAreRefused | src/server/download-path-policy.ts:180-202 | a resolvable request is refused as outside exactly when its real path has left every root that contains its name |
| PathPolicy.AuthorizedIff | src/server/download-path-policy.ts:180-216 | a request that has not escaped is authorised exactly if its real path is a directory, and otherwise fails as that or with the error of looking |
| PathPolicy.DeepestExistingAncestor | src/server/download-path-policy.ts:122-135 | the loop ends at the longest existing prefix and passes on any error but a missing entry |
| PathPolicy.CreatedOnlyInside | src/server/download-path-policy.ts:218-232 | nothing is created unless the candidate's deepest existing ancestor really lies in a root that contains the candidate |
| PathPolicy.PreparedInside | src/server/download-path-policy.ts:218-236 | the prepared directory really lies in such a root |
| PathPolicy.PreparesIff | src/server/download-path-policy.ts:218-236 | the directory is created exactly if the request resolves and what exists of it really lies in such a root, and it is returned exactly if it still does afterwards and can be written to |
| PathPolicy.DefaultIsPrepared | src/server/download-path-policy.ts:218-222 | without a request, or with an empty one, the default directory is prepared |
| Directories.Navigation | src/server/server-directory-service.ts:81-98 | string functions give the crumbs of the path's prefixes, and the parent |
| Directories.CrumbsChain | src/server/server-directory-service.ts:81-98 | breadcrumbs are a chain of joins from root to path, and the parent is the last but one |
| Directories.AllLocations | src/server/server-directory-service.ts:120-191 | the three sections are those of the specification, with one alias map through all of them |
| Directories.SectionIs | src/server/server-directory-service.ts:164-186 | one entry for each canonical directory, its source paths exactly the distinct accessible saved ones, its logical path the same in all sections |
| Directories.LogicalIsFirst | src/server/server-directory-service.ts:141-157 | the logical path of a directory is the one that opening the first candidate leading to it gave |
| Directories.CommonIsLogical | src/server/server-directory-service.ts:159-163 | the common places are exactly those that open, under their logical path |
| DirectoryScan.Scan | src/server/server-directory-service.ts:272-343 | the entries are the eligible children of what was read, and what `truncated` means |
| DirectoryScan.UntruncatedIsComplete | src/server/server-directory-service.ts:280-340 | without truncation every eligible child was read and included |
| DirectoryScan.EligibleIff | src/server/server-directory-service.ts:289-333 | an entry stands in a listing exactly if a shown child with a path of at most 4096 units opens as it: a directory, or a file that is none |
| DirectoryScan.EligibleGrows | src/server/server-directory-service.ts:289-333 | each child is listed at most once, in reading order |
| DirectoryScan.FatalIff | src/server/server-directory-service.ts:299-333 | the scan stops at a child exactly if its failure is of the unexpected kind and not one of depth |
| SanitizerProofs.ExtensionSurvives | packages/finalize-fs/src/sanitize.rs:97-117 | a clamped name with a last dot past the start and a 1 to 24 byte extension still ends in it |
| BrokerFrames.BoundedAgrees | packages/native-host/src/broker_protocol.rs:120-152 | cutting the stream one byte past the largest frame changes no accepted value and no error of a shorter stream |
| UpdateChannel.StrictIsOrderable | src/shared/app-update-channel.ts:3-4 | strict versions are orderable and read as their three numerals |
| UpdateMachine.CompletionIsForPresentChannel | src/server/app-update-service.ts:100-139 | a completion that changes the state was fetched for the channel selected now, ends the check, and offers exactly an allowed version above the current one |
| SnapUpload.OnePost | scripts/upload_snap_revision.py:62-88 | a run sends at most one upload, exactly when its first lookup finds nothing and that is saved |
| PollProofs.OneHalfAtATime | src/server/index.ts:1032-1072 | no segment both writes and publishes, and none erases rows or occurrences |

## Left out

- Upper-casing beyond ASCII: the sanitizer folds ASCII and the two letters that fold into it (`ı` and `ſ`).
- Numbers: version numerals and sizes are unbounded integers; JavaScript's rounding above 2^53 is not modelled.
- JSON, YAML, Zod schemas and base64: payloads are byte strings and the codecs are parameters.
- SHA-1, SHA-3, HKDF and HMAC: hashes are arbitrary functions or opaque strings.
- Bencode object keys are byte strings compared byte by byte, as ASCII keys are; JavaScript's order of integer-like keys is not modelled.
- Zip names are byte strings already; the UTF-8 encoding of entry names is not part of this model.
- The timeout, thread and spawn errors of the broker's timed reader: only its size logic is modelled.
- The download of metadata in the update service: a fetch either gives a version or fails; the state is unchanged between its start and its end.
- Re-entrant event listeners, in the update service and in preload: listeners do not call back into the object.
- Promise scheduling in the work coordinator: an operation leaves the tracker in the step in which it settles.
- Synchronous throws of shutdown actions other than the gate are failures that settle right after the batch that starts them.
- Microtasks in preload are queued for each channel separately; the order between channels is arbitrary.
- PollSteps.RunKeeps: other operations are assumed to keep the order that the poll keeps and, session saves aside, to leave the row of a task alone whose lock the poll holds; minted ids are assumed to be fresh.
- The cleanup of finished direct downloads is modelled by its contract: it commits before it publishes, adopts like the loop does, or defers.
- Reservations and legacy quarantine of engine ids, and the clearing of transfer speeds on terminal tasks.
- The activity samples and reconnect anchors recorded at the end of a poll; a poll that overlaps the one modelled is one of the other operations.
- The desktop twin of the poll loop and the rest of both `index.ts` files: wiring.
- Windows path rules, symbolic links beyond what `realpath` answers, and file-system changes in the middle of a call.
- The final sort of a directory listing by collation, and file validation and directory creation, which only combine the functions modelled here.
- Locks, retries and back-off timers: none of the properties depends on them.
