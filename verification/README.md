# nixnas: verified models of its risky parts

nixnas builds, verifies and flashes an encrypted NAS stick, activates new systems on it and
unlocks its storage. This project models the parts of it where a mistake costs data or locks
the operator out, and proves what their code and documentation promise.

| File | Models |
|---|---|
| `Text` | shared: options, minima, distinct lists; strings with lexicographic order, numerals, splitting, trimming |
| `Calendar`, `Stamp` | the hand-written UTC calendar of the session log, against the Gregorian calendar and the "Seconds Since the Epoch" formula of POSIX.1-2017 (XBD section 4.16) |
| `SessionLog` | the log files of a session: created, written, flushed, removed or pruned |
| `Device`, `Window` | the device handles: cached `sudo dd` reader, plain file with one shared offset, the window the ESP is mounted through |
| `Verify`, `Verdict`, `Shown`, `Findings` | the VERIFY run, its evidence as a function of the bytes, what PASS means, and what each step, row and issue on the screen means |
| `Flash`, `Gpt`, `FlashCheck` | backup, write, header check; the sgdisk partition grow; what VERIFY says of a flashed stick |
| `KeyLog`, `FlashScreen`, `FlashSession`, `FlashOrdinary`, `FlashUi` | the FLASH screen: state machine, every key sequence, the ordinary one, the stateful screen |
| `BuildFlow`, `BuildSession`, `BuildOrdinary`, `BuildUi` | the BUILD & FLASH screen, likewise |
| `Switch`, `SwitchLost`, `SwitchRace`, `SwitchRefuses`, `SwitchWait`, `SwitchHonest`, `SwitchMislead` | `nixnas-switch` as a transition system of wrappers, units, processes, lock inodes and result files |
| `Persist` | the build-time gate on state directories |
| `Names`, `Unlock`, `Location` | the unlock chain, the storage target and its runs, the hot-mode volumes and pools |

Code that changes state is a class or a method here too: the handles, the window, the log, the
GPT, the two screens and the flash and verify procedures. Each such method is proved against a
specification function or predicate, and the results below are about those. `hide` statements
only keep definitions out of a proof's sight.

## What the outside is assumed to do

* **dd, read.** A `sudo dd` fails or returns a prefix of the range it was asked for, and the whole
  range when the reader is `exact`. A short but successful `dd` looks like the end of the device,
  so completeness of a backup and everything VERIFY concludes are stated for exact readers (a
  plain file always is one). What a reader does return is right in either case. A handle is
  `reliable` when no `dd` and no system call on it fails; results that say when something succeeds
  are about reliable handles, and the others hold for all.
* **Writes.** What is fed to a sink lands in order, perhaps late, perhaps only a prefix. A sink is
  `honest` when a successful finish means every byte landed; a device takes no more than it holds.
  Nothing is claimed to be flashed on that trust alone: the header is read back.
* **GPT parser, FAT driver, SHA-256** are functions of the bytes they are shown. After a failed
  read the parser may report anything, and the driver overlooks files but invents none. Where a
  digest must tell two strings apart, exactly that pair is assumed not to collide.
* **sgdisk** applies its operations in memory and writes once; a new partition with end 0 ends at
  the last sector of the free run it starts in, and its start is not realigned. On a `reliable`
  device a call whose operations apply succeeds.
* **The logs directory** is touched by nobody else during the session. Buffered lines may be lost,
  but not in a `reliable` directory, where no call on it fails; a `readable` one can be listed at exit.
* **nixnas-switch.** `pgrep` sees every live switch-to-configuration. The momentary lock that the
  `flock` probe itself takes is not modelled. `Switch.AtomicExclusion` takes the probe, the `pgrep`
  and the `rm` as one action. The script's three actions are not one, and without that assumption
  overlapping activations are reachable from every quiet machine (`SwitchLost.OverlapIff`). In a
  given run they are excluded as long as no step removes the lock file under a live switch
  (`Switch.CleanExcludes`); after such a step an overlap is always reachable
  (`SwitchLost.LostOverlaps`).
* **systemd** holds a job back exactly while a job named in its `After=` is unfinished. A right
  passphrase stays in the kernel keyring for the whole run, and one passphrase opens all members.

## What turned out not to hold

* From the year 10000 on, later stamps can sort earlier (`Stamp.StampOrderBreaks`); that is the exact
  bound (`Stamp.StampOrderIff`), and of the fifteen characters too (`Stamp.StampWidth`).
* A too-small device whose compare the operator skipped is an issue no step shows as failed, so
  "no step failed" is not quite PASS (`Verdict.PassIff`, exactly when: `Verdict.SilentFailureIff`).
* A stick that was flashed and then grown fails its own fidelity compare: the compare passes exactly
  when no byte under the image changed since the write (`FlashCheck.ComparedAfterFlash`), and the
  grow rewrites the partition table there.
* A partition grow drops the partition's attribute flags and any quotes around its name, and
  fills to the end exactly when no partition lies behind (`Gpt.GrownIsSound`, `Gpt.NameKeptIff`).
* Activations do not exclude each other: from every quiet machine the script's steps, beside a switch
  started by other means, can lead to an overlap, and they could not if probe, `pgrep` and `rm` were
  one action (`SwitchLost.OverlapIff`). `SwitchRace.NonAtomicOverlap` is a run of two wrappers of
  different modes.
* A second wrapper of the same mode can make the first report success for a unit that failed
  (`SwitchRace.SecondWrapperMisleads`). A wrapper follows its own unit exactly as long as no step
  disturbs it: another wrapper of the mode that clears a result which is there, or starts a unit,
  while this one waits, or a result left there when it starts its own (`SwitchHonest.FollowsIff`);
  then its report is true (`SwitchHonest.HonestExit`), and after any disturbing step the run can go
  on to a false one (`SwitchMislead.DisturbedMisleads`).
* A status of "256", or of "00", exits 0 without success (`SwitchWait.ExitZeroIff`).
* BUILD & FLASH records size 0 for an image it cannot stat, and then lets any image through the
  review (`BuildFlow.ReviewPassesIff`); the ordinary keys of any such session then start the flash
  worker on a stick smaller than the image (`BuildOrdinary.UnreadSizeFlashes`).
* A data member that `/nix` or `/` also needs is no longer boot-critical
  (`Location.DisjointKeepsCritical`). Pools declared without any member are never imported
  (`Unlock.TargetIsRaised`).

## Model

| member | source | states |
|---|---|---|
| Calendar.CivilIsPosix | tui/src/logging.rs:247-257 | on every day number, before and after the epoch, the conversion gives a valid Gregorian date whose POSIX day number is the one converted |
| Calendar.CivilOfPosix | tui/src/logging.rs:247-257 | every valid date is what its own day number converts to: the conversion is a bijection |
| Calendar.CivilStep | tui/src/logging.rs:247-257 | the next day converts to the next calendar date, over month ends, leap days and year ends |
| Calendar.CivilOrder | tui/src/logging.rs:247-257 | a later day, and only that, converts to a later date |
| Calendar.YearOfEra | tui/src/logging.rs:249-251 | the chained divisions find the year of the 400-year era: century, leap cycle and year of cycle |
| Calendar.MarchSplit | tui/src/logging.rs:247-256 | a day number splits into a March-based year, its leap days and a day of that year |
| Calendar.ClockIsPosix | tui/src/logging.rs:242-258 | every clock reading gives a valid moment whose "Seconds Since the Epoch" is the reading, or 0 before the epoch |
| Calendar.ClockOfPosix | tui/src/logging.rs:242-258 | every valid moment from the epoch on is some reading's moment |
| Calendar.ClockOrder | tui/src/logging.rs:242-258 | later seconds give later moments |
| Calendar.YearRange | tui/src/logging.rs:242-258 | the year has four digits exactly for seconds below 253402300800 |
| Stamp.PadIsDigits | tui/src/logging.rs:257 | zero padding prints exactly the fixed-width digits of a number that fits |
| Stamp.StampWidth | tui/src/logging.rs:238-258 | the stamp has fifteen characters exactly before the year 10000 |
| Stamp.StampReads | tui/src/logging.rs:238-258 | before the year 10000 year, month, day, hour, minute and second read back from their places in the stamp, around a dash |
| Stamp.StampOrder | tui/src/logging.rs:238-258 | before the year 10000 a later second has a strictly greater stamp |
| Stamp.StampOrderBreaks | tui/src/logging.rs:257 | the first second of the year 10000 has a smaller stamp than the one before it |
| Stamp.StampOrderIff | tui/src/logging.rs:238-258 | stamps sort as the clock runs below a bound exactly when the bound is the year 10000 at most |
| SessionLog.SessionLog.constructor | tui/src/logging.rs:50-57 | a session starts with no files and the directory as it is |
| SessionLog.CandidatesDistinct | tui/src/logging.rs:78-83 | the hundred candidate names of an action and a second are all different |
| SessionLog.Crowded | tui/src/logging.rs:76-101 | where no earlier session used the names, they can all be taken only by a hundred files of this one |
| SessionLog.SessionLog.Begin | tui/src/logging.rs:63-102 | the file is the first free of a hundred candidate names and new, and holds its start line; no existing file changes beyond the flush of the one that was open; it fails only where an I/O call fails or all hundred names are taken |
| SessionLog.SessionLog.OpenNew | tui/src/logging.rs:79-99 | a candidate is created and recorded or nothing changes, taken means it existed, and where nothing fails every free one is created |
| SessionLog.SessionLog.WriteLine | tui/src/logging.rs:192-201 | a line is appended to the buffer of the open file or logging stops, which it does only when a write fails |
| SessionLog.SessionLog.Flush | tui/src/logging.rs:207-214 | only the open file changes, nothing when nothing was written, and where nothing fails every buffered line arrives |
| SessionLog.SessionLog.Done | tui/src/logging.rs:128-131 | the log is closed with the verdict line last, no name appears or vanishes, and no file but the open one changes |
| SessionLog.SessionLog.Finish | tui/src/logging.rs:217-221 | closing changes no file but the open one, and loses no line where nothing fails |
| SessionLog.SessionLog.Clean | tui/src/logging.rs:148-153 | files of earlier sessions stay as they were; if every removal succeeds the directory is exactly the initial one |
| SessionLog.SessionLog.KeepAndPrune | tui/src/logging.rs:159-190 | a directory that can be read is always pruned: exactly the oldest logs beyond 20 go, but for those whose removal fails; no file of another session changes; a missing or unreadable directory is left alone; where nothing fails each file left holds what it was told, and the session's last one also the number of removals |
| SessionLog.PruneAndTrace | tui/src/logging.rs:165-189 | the prune, and the trace of it in the last file of this session exactly if that one is left and something was removed |
| SessionLog.Prune | tui/src/logging.rs:165-179 | the directory after the prune is the one before without the logs due for removal, but for the stuck ones |
| SessionLog.IsLogIff | tui/src/logging.rs:169 | a log is a name with the extension `log` on a non-empty stem |
| SessionLog.OnlyLogsSound | tui/src/logging.rs:165-170 | the listing keeps each `.log` name once and nothing else |
| SessionLog.SortSound | tui/src/logging.rs:174 | the sort puts the distinct names oldest first |
| SessionLog.RetainCut | tui/src/logging.rs:175-179 | the first so many of the sorted logs are the ones due: as many as there are beyond 20, none newer than one kept |
| SessionLog.RetainedCount | tui/src/logging.rs:171-179 | 20 logs are left or all of them, and beyond that only stuck ones; every other file is; none removed is newer than a removable one left |
| SessionLog.Drive | tui/src/logging.rs:63-221 | any sequence of calls, whatever fails, keeps the session's files new, distinct and in order, and earlier files untouched; where nothing fails the files hold exactly the lines they were told, and the first hundred calls each begin a file exactly if they start an action under unused names |
| SessionLog.CleanSession | tui/src/logging.rs:63-153 | a whole session that ends with clean leaves the directory exactly as it found it |
| SessionLog.KeepSession | tui/src/logging.rs:63-190 | after a whole session a directory that can be read holds the newest 20 of its old logs and those written, or all of them, beyond that only stuck ones, every other file, and no earlier content changed; where nothing fails each file left holds what it was told |
| Device.SudoReader.constructor | tui/src/sudo.rs:387-396 | a new reader stands at 0 with a true, empty cache |
| Device.SudoReader.FreshClone | tui/src/sudo.rs:398-407 | a clone is a separate object at the same position |
| Device.SudoReader.DdRange | tui/src/sudo.rs:411-440 | the oracle: an error, or a prefix of the range, whole when exact |
| Device.SudoReader.Read | tui/src/sudo.rs:442-475 | returns the device's bytes at the position and advances by their count; nothing only at the end or for an empty buffer; fails only by a failed `dd`, never at the end or on a cache hit; the rest of the buffer and, on error, the position stay |
| Device.SudoReader.ReadDirect | tui/src/sudo.rs:450-457 | the same for the large path |
| Device.SudoReader.ReadCached | tui/src/sudo.rs:458-474 | the same for the cached path, over hits, which never fail, misses and failed refills |
| Device.SudoReader.Refill | tui/src/sudo.rs:460-466 | the cache becomes a true slice that covers the position, or stays as it was |
| Device.SudoReader.FromCache | tui/src/sudo.rs:467-474 | what is served from the cache is what the device holds at the position, and something whenever the cache covers it |
| Device.SudoReader.Seek | tui/src/sudo.rs:477-491 | hits the exact target modulo 2^64, or changes nothing when it is negative |
| Device.DevReader.TryClone | tui/src/sudo.rs:323-331 | a file's clone is the same offset, a sudo reader's an independent one |
| Device.DevReader.Read | tui/src/sudo.rs:334-341 | either kind reads as an uncached cursor, and a reliable one never fails |
| Device.DevReader.Seek | tui/src/sudo.rs:343-350 | either kind seeks to the exact target in 0..2^64, a sudo reader and a reliable file always do, and a failed seek changes nothing |
| Device.DevReader.ReadExact | tui/src/verify.rs:270-276 | fills the buffer with exactly the next bytes or fails, and reports an early end only where there is one, which is all that stops a reliable handle |
| Device.Drive | tui/src/sudo.rs:442-491 | any interleaving of seeks, large and small reads and failing `dd` calls is a run of the uncached cursor, in which a sudo reader's seek fails only for a negative target and its read only by a failed `dd` with bytes left to read |
| Device.ReadsWalk | tui/src/sudo.rs:442-475 | reads alone walk the device without gap or overlap |
| Window.SliceCursor.Read | tui/src/verify.rs:419-431 | reads the window as an in-memory cursor wherever the handle stands, never past it and never overflowing |
| Window.SliceCursor.ReadThere | tui/src/verify.rs:426-427 | the read happens at the window's own place on the device, wherever the shared handle stood |
| Window.SliceCursor.Seek | tui/src/verify.rs:433-450 | hits the exact target inside the window's own coordinates, or changes nothing |
| Window.SliceCursor.ReadToEnd | tui/src/verify.rs:401-431 | reading to EOF terminates with exactly the window's remaining bytes, over a reliable handle always |
| Window.WindowRead | tui/src/verify.rs:420-430 | a read of the device cut to the window is a read of the window's contents |
| Verify.RunVerify | tui/src/verify.rs:102-394 | the evidence, event by event, is a function of the bytes and of what was parsed, whatever the kind of handle, its clones' sharing and its offset; what was parsed is the truth unless a read in the parser or driver failed; when nothing fails, whether the run ends well depends on the bytes too: exactly when the LUKS header fits; an image's run shows the digest of the whole image |
| Verify.ImageShown | tui/src/verify.rs:308-315 | an image's evidence ends in the digest of all its bytes, after progress up to its last byte |
| Verify.ParseBoth | tui/src/verify.rs:135-264 | what table and ESP were parsed to is the truth unless a read failed, and no file is invented |
| Verify.ReadWhole | tui/src/verify.rs:135-138 | a consumer that seeks first reads exactly the device through its handle, wherever a sharing clone left the offset |
| Verify.ParseGpt | tui/src/verify.rs:135-138 | the parser, reading through a clone that others moved, sees the device's own bytes unless a read failed, and over a reliable handle none does |
| Verify.MountEsp | tui/src/verify.rs:199-263 | the driver, reading through the window, sees the ESP's own bytes; after a failed read, which a reliable handle has not, it invents no file |
| Verify.CheckEsp | tui/src/verify.rs:193-264 | the view is that of the located ESP's bytes; a failed read in the driver becomes part of the view and does not end the run; a reliable handle loses nothing |
| Verify.CheckStore | tui/src/verify.rs:270-303 | the header evidence is that of the eight bytes at the store's start; over a reliable handle it is there whenever they fit |
| Verify.CheckWhole | tui/src/verify.rs:308-384 | hash, compare or nothing to compare, by target and image |
| Verify.Fidelity | tui/src/verify.rs:316-380 | the chunk loop over both handles ends in the evidence of the common prefix |
| Verify.HashPair | tui/src/verify.rs:335-366 | both hashers are fed exactly the same-length prefixes reached when the skip flag is seen |
| Verify.HashChunk | tui/src/verify.rs:345-365 | one chunk extends both prefixes and the progress by the same count |
| Verify.Feed | tui/src/verify.rs:496-500 | one chunk read whole extends the hashed prefix of the device |
| Verify.Sha256Range | tui/src/verify.rs:484-507 | chunked hashing is hashing the whole range, unless cut short by the operator |
| Verdict.SameEvidence | tui/src/verify.rs:102-394 | a plain file and a sudo reader over equal bytes give equal reports; when nothing fails both end well or neither does, by the bytes alone |
| Verdict.SilentFailureIff | tui/src/verify.rs:316-393 | a run fails without a failed step exactly when the layout is right and a too-small device had its compare skipped |
| Verdict.FailedReadsNeverPass | tui/src/verify.rs:135-264 | a PASS reached although reads of the table or the ESP failed is one that undisturbed reads would have given |
| Verdict.PassIff | tui/src/verify.rs:386-393 | PASS exactly when no step failed and no too-small device had its compare skipped |
| Verdict.PassMeans | tui/src/verify.rs:116-394 | PASS exactly when there are one ESP and one store, a boot loader and a UKI, a LUKS2 header (section 2.1 of the LUKS2 On-Disk Format Specification) and, on a device, room for the image and an equal or waived digest |
| Verdict.GptHonest | tui/src/verify.rs:135-190 | the table step fails exactly when it records an issue |
| Verdict.BootHonest | tui/src/verify.rs:193-264 | likewise for boot loader and UKIs |
| Verdict.LuksHonest | tui/src/verify.rs:270-303 | likewise for the header |
| Verdict.FidelityHonest | tui/src/verify.rs:316-380 | likewise for the compare, but for the skipped too-small device |
| Verdict.FidelityExact | tui/src/verify.rs:316-380 | the compare ends Passed exactly when it was not skipped and the device starts with the whole image |
| Verdict.SkippedIff | tui/src/verify.rs:340-366 | a pass stops short exactly when some poll before a remaining chunk sees the flag |
| Verdict.TicksIncrease | tui/src/verify.rs:335-366 | progress strictly increases up to the whole length |
| Verdict.HexInjective | tui/src/verify.rs:510-512 | equal hex strings are equal digests |
| Verdict.HexReads | tui/src/verify.rs:510-512 | two lowercase characters a byte, whose values read the byte back |
| Shown.FinalStates | tui/src/verify.rs:116-384 | the state each of the five steps ends in, from the table's entries, the ESP's files, the eight header bytes and the digests |
| Shown.UsedIs | tui/src/verify.rs:141-167 | the partitions counted are the entries in use |
| Shown.LocatedIs | tui/src/verify.rs:146-165 | the ESP is the first entry in use of its type, the store the first of any other |
| Shown.IsUkiIff | tui/src/verify.rs:228-230 | a UKI is a file whose name ends in ".efi", in any case |
| Shown.Luks2Iff | tui/src/verify.rs:277-300 | the header is LUKS2 exactly for these eight bytes |
| Findings.IssuesIff | tui/src/verify.rs:135-384 | each kind of issue is recorded exactly when what it says is so |
| Findings.RowsIff | tui/src/verify.rs:135-384 | each kind of row is shown exactly when what it says is so |
| Findings.ProgressIs | tui/src/verify.rs:308-366 | progress is reported against the whole goal, up to what was worked through, and that is reported itself |
| Flash.Sink.Create | tui/src/flash.rs:254-255 | a created backup is empty |
| Flash.Sink.OpenDevice | tui/src/sudo.rs:263-296 | a device opened for writing keeps its bytes until something lands |
| Flash.Sink.WriteAll | tui/src/sudo.rs:500-511 | a write feeds the whole chunk, or on failure a prefix of it |
| Flash.Sink.Finish | tui/src/sudo.rs:515-531 | success of an honest sink means every byte landed, and no more than fits |
| Flash.OpenReader | tui/src/sudo.rs:243-258 | a fresh handle at the start of the device |
| Flash.CopyWithProgress | tui/src/flash.rs:563-581 | what is written is a prefix of the source, the whole of it on success, with strictly increasing counters |
| Flash.CopyChunk | tui/src/flash.rs:571-578 | one turn extends what was written by what was read |
| Flash.ReadPrefix | tui/src/flash.rs:584-596 | exactly the first bytes, or all there are |
| Flash.SamePrefix | tui/src/flash.rs:600-613 | true exactly when the device starts with the image's first 4 MiB of a non-empty image |
| Flash.Backup | tui/src/flash.rs:249-260 | the backup is the whole device once it succeeds |
| Flash.WriteImage | tui/src/flash.rs:264-273 | the device is the image and then its old tail, and when nothing fails every image that fits is written |
| Flash.RunFlash | tui/src/flash.rs:236-328 | a failed backup leaves the device untouched; if any byte changed the requested backup is the whole old device; success means image, then old tail, with the header proved; when nothing fails exactly the non-empty images that fit are flashed, a larger one ends in the write and an empty one in the check |
| Flash.RestoreIff | tui/src/flash.rs:246-260 | copying the backup back restores the device exactly when no byte beyond the backup changed |
| FlashCheck.ComparedAfterFlash | tui/src/verify.rs:316-380 | the compare of a flashed stick passes exactly when it was not skipped and no byte under the image changed since the write |
| FlashCheck.FlashThenCompare | tui/src/flash.rs:236-328 | a flash without a grow is followed by a compare that passes unless skipped, with no issue |
| Gpt.LastNumber | tui/src/flash.rs:496-514 | the number parsed from the listing is the largest partition number |
| Gpt.InfoRoundTrip | tui/src/flash.rs:517-558 | start, type, unique GUID and name without outer quotes are read back from what sgdisk prints |
| Gpt.NameKeptIff | tui/src/flash.rs:545-558 | a name survives exactly when it neither starts nor ends with a quote |
| Gpt.GptDisk.RunSgdisk | tui/src/flash.rs:477-493 | all operations and one write, or no change; on a reliable device exactly the operations that apply succeed |
| Gpt.CallsGrow | tui/src/flash.rs:335-354 | both calls succeed on a well-formed table and give the grown table |
| Gpt.GrownIsSound | tui/src/flash.rs:335-354 | disjoint partitions, all others unchanged, the grown one with its start and GUIDs, covering its old range, at the device end exactly when none lies behind |
| Gpt.GrownEnd | tui/src/flash.rs:342-352 | where the recreated partition ends, and that it meets no other |
| Gpt.GptDisk.GrowLastPartition | tui/src/flash.rs:335-354 | on a reliable device the grow always succeeds; success is the grown table of the largest number, and the table stays well formed with the same numbers in every outcome |
| FlashScreen.OpenedValid | tui/src/ui/flash.rs:68-92 | the screen opens inside its gates, with or without an image |
| FlashScreen.KeyKeeps | tui/src/ui/flash.rs:194-340 | every key keeps the gates, and past the list the disk in question |
| FlashScreen.ListKeys | tui/src/ui/flash.rs:198-210 | on the list Up takes back a Down, nothing moves past an end, letters do what the arrows do, and a refresh shows the new list with one of its disks chosen |
| FlashScreen.AnswerIff | tui/src/ui/flash.rs:217-233 | only Y, y, N and n answer the backup question, and only Y and y with yes |
| FlashSession.StepSound | tui/src/ui/flash.rs:115-340 | what phase and fields claim about the keys pressed stays true with one more key or event |
| FlashSession.EveryLaunchAuthorised | tui/src/ui/flash.rs:151-340 | over all key and event sequences at most one worker starts, with the screen's own image, only on the disk whose name was typed in that visit, never on one known to be too small, with the answer and passphrase given for it; the screen never arms without an image |
| FlashSession.KeyStartsIff | tui/src/ui/flash.rs:171-328 | a key starts a worker exactly if it is Enter on the selected disk's name as root or on an accepted sudo password, with exactly the screen's own image, disk and answers, and the screen forgets the passphrase |
| FlashSession.Refused | tui/src/ui/flash.rs:252-328 | any other Enter there asks again, asks for the sudo password, or ends with the reason |
| FlashSession.EscBacksOut | tui/src/ui/flash.rs:194-340 | Esc goes back to the summary with every answer kept, from there to the list and from there off the screen, is ignored by a running worker, and starts nothing |
| FlashOrdinary.OrdinaryFlash | tui/src/ui/flash.rs:68-340 | for every image, listing and disk on it that is not too small, the ordinary keys start exactly the worker asked for: backup as answered, grow exactly for a larger disk, passphrase as typed |
| FlashUi.FlashUi.constructor | tui/src/ui/flash.rs:68-92 | the stateful screen opens as the specification does |
| FlashUi.FlashUi.RefreshDisks | tui/src/ui/flash.rs:98-110 | the selection stays inside the new list |
| FlashUi.FlashUi.Arm | tui/src/ui/flash.rs:171-191 | the worker's arguments and the screen's new state |
| FlashUi.FlashUi.OnKey | tui/src/ui/flash.rs:194-340 | the stateful screen follows the state machine on every key and holds a receiver exactly while running |
| FlashUi.FlashUi.DrainEvents | tui/src/ui/flash.rs:115-144 | the last terminal event decides, and nothing else of the gates changes |
| FlashUi.Drive | tui/src/ui/flash.rs:68-340 | the stateful screen under any keys and event batches starts exactly the workers of the session, at most one, with the screen's own image, authorised by the keys pressed |
| KeyLog.EditIs | tui/src/ui/flash.rs:246-250 | characters append, Backspace takes the last back, no other key edits |
| KeyLog.LastFinishIs | tui/src/ui/flash.rs:115-144 | the last verdict of a batch of events counts, so a failed flash is shown as failed |
| Text.TrimIs | tui/src/ui/flash.rs:270 | trimming takes off the spaces at both ends and only those |
| BuildFlow.KeyKeeps | tui/src/ui/buildflash.rs:301-528 | every key keeps the gates, among them that review and arming have a built image, and the picked stick |
| BuildFlow.ReviewPassesIff | tui/src/ui/buildflash.rs:190-270 | a build that ends with an image leads to the review, any other ends as failed; the review lets exactly those images through that fit or could not be stat'ed |
| BuildFlow.ListKeys | tui/src/ui/buildflash.rs:313-347 | the same keys on the list as on the FLASH screen |
| BuildFlow.AnswerIff | tui/src/ui/buildflash.rs:430-447 | likewise |
| BuildSession.StageStep | tui/src/ui/buildflash.rs:301-528 | where a key can lead: builds from the second passphrase alone, flashes from arming alone, never back before the build |
| BuildSession.StepSound | tui/src/ui/buildflash.rs:163-528 | what the stage claims about the keys pressed stays true with one more key or event |
| BuildSession.EveryStartAuthorised | tui/src/ui/buildflash.rs:163-528 | over all sequences there is at most one build, of a non-empty passphrase typed twice, sized to a picked stick of at least 4 GiB, and at most one flash, of the image the build reported onto that stick, after its typed name, with a recorded size that fits |
| BuildSession.KeyStartsIff | tui/src/ui/buildflash.rs:272-528 | a key starts the build exactly if it is Enter on a matching second passphrase, a flash exactly if it is Enter on the picked stick's name as root or on an accepted sudo password, with exactly the arguments on the screen |
| BuildSession.Refused | tui/src/ui/buildflash.rs:348-518 | any other Enter on a field asks again, goes on to the next field, or ends with the reason |
| BuildSession.EscBacksOut | tui/src/ui/buildflash.rs:301-528 | Esc goes back to the review with every answer kept while a flash is being armed, else off the screen, is ignored by a running worker, and starts nothing |
| BuildSession.PickIff | tui/src/ui/buildflash.rs:323-345 | a stick is picked exactly when its size can be read and is at least 4 GiB |
| BuildOrdinary.OrdinaryBuildAndFlash | tui/src/ui/buildflash.rs:102-528 | for every listing, stick on it of at least 4 GiB and non-empty passphrase the ordinary keys start exactly that build, sized to the stick, and after it exactly the flash of its image onto that stick |
| BuildOrdinary.UnreadSizeFlashes | tui/src/ui/buildflash.rs:163-528 | so any image larger than the stick whose size could not be read is flashed onto it |
| BuildOrdinary.UnreadSizeExample | tui/src/ui/buildflash.rs:163-528 | a listing, a stick and an image of which that is so |
| BuildUi.BuildUi.constructor | tui/src/ui/buildflash.rs:102-136 | the stateful screen opens as the specification does |
| BuildUi.BuildUi.ArmFlash | tui/src/ui/buildflash.rs:272-298 | the worker's arguments and the screen's new state |
| BuildUi.BuildUi.OnKey | tui/src/ui/buildflash.rs:301-528 | the stateful screen follows the state machine on every key and holds each receiver exactly while its worker runs |
| BuildUi.BuildUi.DrainBuild | tui/src/ui/buildflash.rs:163-211 | the pane keeps the newest lines within its bound, and the last verdict decides the stage |
| BuildUi.LinesConcat | tui/src/ui/buildflash.rs:163-211 | the pane's lines of one batch after another are those of both |
| BuildUi.LastBuiltIs | tui/src/ui/buildflash.rs:181-210 | the last verdict of a batch of build events counts |
| BuildUi.BuildUi.DrainFlash | tui/src/ui/buildflash.rs:213-241 | the last terminal event decides |
| BuildUi.BuildUi.DrainEvents | tui/src/ui/buildflash.rs:163-241 | both halves in one call: a finished build shows the review, and only a running flash can finish |
| BuildUi.Drive | tui/src/ui/buildflash.rs:102-528 | the stateful screen under any keys and event batches starts exactly the workers of the session: at most one build and one flash, each authorised by the keys pressed |
| BuildUi.KeyStarts | tui/src/ui/buildflash.rs:272-528 | a key enters build or flash exactly by starting its worker |
| Switch.UnitsNeverDouble | modules/appliance/switch.nix:101-160 | in no run are two units of one mode ever loaded, whoever dies when |
| Switch.AtomicExclusion | modules/appliance/switch.nix:113-129 | with the hygiene as one action every live switch past the lock holds the inode at the path, and no two activations overlap, despite orphans and kills |
| Switch.PathIff | modules/appliance/switch.nix:113-129 | for either form of the hygiene, that holds throughout a run exactly when no step removes the file in use |
| Switch.PathStep | modules/appliance/switch.nix:113-129 | the same for one step |
| Switch.FlockAlways | modules/appliance/switch.nix:113-120 | no flock is ever held by two live switches |
| Switch.InvExcludes | modules/appliance/switch.nix:113-120 | the lock invariant rules out overlap |
| Switch.CleanExcludes | modules/appliance/switch.nix:113-129 | for either form of the hygiene, a run that removes no lock file in use reaches no overlap |
| SwitchLost.LostOverlaps | modules/appliance/switch.nix:113-129 | from every reachable state in which a live switch lost the path an overlap is reachable |
| SwitchLost.OverlapIff | modules/appliance/switch.nix:113-129 | from every quiet machine overlapping activations are reachable exactly when the hygiene is not one action |
| SwitchRace.NonAtomicOverlap | modules/appliance/switch.nix:119-129 | a run of the three separate actions in which two activations overlap |
| SwitchRace.SecondWrapperMisleads | modules/appliance/switch.nix:136-207 | a run in which a wrapper exits 0 though its own unit failed |
| SwitchRefuses.RefusesWhileLoaded | modules/appliance/switch.nix:104-111 | while a unit of any mode stays loaded a wrapper never gets past its check: it exits 1 there, or dies, and starts nothing |
| SwitchRefuses.PassesCheck | modules/appliance/switch.nix:104-111 | with no unit loaded the check passes |
| SwitchRefuses.HygieneAlone | modules/appliance/switch.nix:119-129 | left alone, it goes ahead with a free lock, refuses a held one while a switch is alive, and removes it when none is |
| SwitchRefuses.StartsAlone | modules/appliance/switch.nix:137-160 | then it clears the old result and starts one unit of its mode with one process |
| SwitchRefuses.ContendedEnds | modules/appliance/switch.nix:113-115 | a switch that finds the lock held ends its unit with status 11 |
| SwitchWait.CaptureRoundTrip | modules/appliance/switch.nix:54-56 | what the hook prints, with its defaults for what is unset, is what the script reads |
| SwitchWait.ExitZeroIff | modules/appliance/switch.nix:195-207 | the exact results and statuses, within the numbers the shell accepts, for which the script exits 0 |
| SwitchWait.ExitZeroIsSuccess | modules/appliance/switch.nix:195-207 | for statuses as systemd reports them, below 256, that is exactly success |
| SwitchWait.ExitTells | modules/appliance/switch.nix:195-207 | 0 for success, a failed unit's status from 1 to 255 as it is, and 1 for one that is empty, 0 or no number |
| SwitchWait.WrapperIsInvisible | modules/appliance/switch.nix:143-188 | once its unit is started, a wrapper's steps, its death included, can be left out of any run without changing anything else |
| SwitchHonest.FollowsIff | modules/appliance/switch.nix:131-207 | in any run from a quiet machine a waiting wrapper follows its own unit in every state exactly when no step disturbs it |
| SwitchHonest.DisturbedLoses | modules/appliance/switch.nix:131-160 | a disturbing step always costs the wrapper its unit's result |
| SwitchHonest.HonestExit | modules/appliance/switch.nix:101-207 | in any run from a quiet machine an undisturbed wrapper exits after starting its unit only once that ended, with that end's own status, 0 exactly for success as systemd reports it; without a unit, or without a recorded result, it exits 1 |
| SwitchMislead.DisturbedMisleads | modules/appliance/switch.nix:131-207 | from every reachable state that a disturbing step leads to, the run can go on until the wrapper exits before its unit ended or with another status than its end calls for |
| SwitchHonest.WaitEnds | modules/appliance/switch.nix:175-188 | in any run from a quiet machine, once the unit of a waiting undisturbed wrapper is gone, four of its actions end the wait loop however the others run, and until then it can act |
| SwitchHonest.LinkAlways | modules/appliance/switch.nix:143-160 | in every run each process belongs to at most one active unit, numbers are not reused, and ends are recorded exactly of reported units |
| Persist.ListOrString | modules/appliance/persist-enforce.nix:37-43 | a list of names and one space-separated string declare the same directories, in the same order |
| Persist.WordsInOrder | modules/appliance/persist-enforce.nix:37-43 | names written with single spaces between them, or as a list, are declared all, in their order; null declares none |
| Persist.ListConcat | modules/appliance/persist-enforce.nix:37-43 | a list declares what its texts declare, one after the other |
| Persist.DeclaresIff | modules/appliance/persist-enforce.nix:37-43 | the directories of a declaration are exactly the words of its texts: stretches without spaces, from one space or end to the next |
| Text.SplitPieces | modules/appliance/persist-enforce.nix:41 | splitting gives exactly the separator-free stretches between separators |
| Persist.AncestorsInOrder | modules/appliance/persist-enforce.nix:63-71 | every strict ancestor once, nearest first |
| Persist.AncestorIff | modules/appliance/persist-enforce.nix:63-71 | a path is listed exactly when it is normal and its components are a strict prefix, never a sibling sharing characters |
| Persist.ComponentsOfNormal | modules/appliance/persist-enforce.nix:63-71 | splitting a normal path gives back its components |
| Persist.PersistedIff | modules/appliance/persist-enforce.nix:76-87 | covered exactly by a mount at the path itself or by a bind mount at a strict component prefix |
| Persist.NestedIsCovered | modules/appliance/persist-enforce.nix:80-87 | a bind mount at a directory covers everything below it at any depth |
| Persist.EntriesAll | modules/appliance/persist-enforce.nix:45-55 | the entries are exactly the pairs of a service and a word of its declaration |
| Persist.GateIff | modules/appliance/persist-enforce.nix:90-92 | exactly the entries neither covered nor acknowledged fail |
| Persist.GateOverDeclarations | modules/appliance/persist-enforce.nix:37-115 | in usb mode, and only there, a build fails exactly for each word of a service's declaration that is neither covered nor acknowledged |
| Names.AttrNamesSorted | modules/storage/connect.nix:35-36 | the names, each once, strictly in order |
| Names.OrderFollowsNames | modules/store/location.nix:66-71 | places follow the names and are distinct |
| Names.OrderIsOnto | modules/store/location.nix:66-71 | every place below the count is taken |
| Unlock.NoCycle | modules/storage/connect.nix:98-129 | in either mode no unit is, however indirectly, ordered after itself |
| Unlock.UsbOrder | modules/storage/connect.nix:98-129 | in every usb run members open one at a time, pools wait for all members, the target for all it wants |
| Unlock.TargetLast | modules/storage/connect.nix:107-129 | in either mode the target starts only once everything it was raised with, all pools among it, has finished |
| Unlock.OnePrompt | modules/storage/connect.nix:98-105 | in every run the operator is prompted at most once more than there were wrong or missing answers, and never in hot mode |
| Unlock.HotNeverUnlocks | modules/storage/connect.nix:40-46 | in hot mode no member is opened again and nothing waits on one |
| Unlock.TargetIsRaised | modules/storage/connect.nix:107-129 | a run that can go no further has raised the target and tried every import, whatever failed, exactly when a member is declared |
| Unlock.StuckIsDone | modules/storage/connect.nix:98-129 | no run deadlocks: with nothing left to do every job is finished |
| Unlock.RunEnds | modules/storage/connect.nix:98-129 | every run ends within three steps a job plus one for each missed prompt |
| Location.PoolOfDataset | modules/store/location.nix:47-50 | a dataset's pool is its name up to the first slash |
| Location.PoolOfIs | modules/store/location.nix:47-50 | the pool named, or else the device's name up to the first slash, or else `-unset-` |
| Location.UniqueKeeps | modules/store/location.nix:56-59 | removing duplicates keeps each element exactly once |
| Location.EachPoolOnce | modules/store/location.nix:52-59 | each distinct pool behind a zfs `/nix` or `/` is imported once, and no other |
| Location.CriticalIff | modules/store/location.nix:253-271 | a member is critical exactly when `/nix` or `/` needs it and data does not list it, with the device of the last declaration |
| Location.DisjointKeepsCritical | modules/store/location.nix:253-271 | all members of `/nix` and `/` stay critical exactly when no name is also data |
| Location.ChainOrder | modules/store/location.nix:66-71 | the volumes' orders are distinct, below their number and follow the names |
| Location.ChainOnto | modules/store/location.nix:66-71 | every order below the number of volumes is used |

## Left out

- Flash.RunFlash: the filesystem grow inside the LUKS store and `partition_path` are one arbitrary change of the device here, because they are other programs' work.
- Flash.Backup: for a `dd` that may return short the backup is only known to be a prefix, because the copy cannot tell that from the end of the device.
- Gpt.GptDisk.GrowLastPartition: partition numbers start at 1, names hold no newline and GUIDs no space, as in any table sgdisk prints.
- BuildSession.EveryStartAuthorised: the image is no larger than the stick by its recorded size, which is the true one whenever the image could be stat'ed.
- FlashSession.EveryLaunchAuthorised: a passphrase passed along without a grow may be an older one; the worker does not use it then.
- Device.DevReader.Seek: the kernel's own limit of 2^63 on file offsets is not modelled.
- Verify.RunVerify: handles are exact and cloning one does not fail; an ESP range that ends past 2^64 is an error here, where the source would wrap; the UKI rows are not sorted, and texts are constructors.
- Verdict.FailedReadsNeverPass: for a table that was read or given up on; a parser that falls back to another table after a failed read may report that one.
- SwitchHonest.HonestExit: for an undisturbed wrapper; without that it is false, and FollowsIff says exactly what is lost.
- SwitchWait.CaptureRoundTrip: for words without spaces and newlines, as systemd's are; `read` would also split at a tab.
- SessionLog.SessionLog.WriteLine: a full buffer reaches the file only at the next flush or close.
- SessionLog.SessionLog.KeepAndPrune: every log's time can be read; a name whose removal fails is a fixed set.
- Unlock.OnePrompt: the keyring entry does not expire during the run.
- `nixnas-switch`'s arguments, target resolution and journal follower: no hard property; an interrupted wrapper is a dead one.
- The `nixnas-unlock` script's polling loop and crypttab text: printing around systemd.
- Process spawning, sudo and its password handling, nix, sops, mkpasswd, cryptsetup, resize.f2fs, lsblk parsing: foreign effects.
- Drawing, scrolling by page, the build's step checklist, the file picker, Ctrl+C: no hard property.
- `human_size`: floating-point formatting.
- The build pipeline's steps and its shred guards: plumbing, with error paths before the guards exist.
- Configuration files, menus, field handling in `config.rs`, `configure.rs` and `home.rs`: no hard property.
- Boot counting, TPM sealing, generation eviction and the initrd's rendering of LUKS entries are not part of this model: they live in other repositories.
- Persistence under a bind mount that another mount in between shadows: the gate does not look at it.
