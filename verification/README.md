# Screeny: machine-checked models of the parts that must not go wrong

Screeny is firmware for a 64x32 LED panel, and the programs that draw for it. This project models its crash-safe
and concurrent code, and three pieces of pure computation, in Dafny, and proves what they are relied on for:

- **Updates** (`Otadata`, `Rollback`, `RollbackSafety`, `OtaFirmware`): two slots, two `otadata` entries, the boot
  loader's four steps and the firmware's writes, with the power allowed to go between any two of them or inside one.
- **Staging an upload** (`ImageScan`, `ImageFormat`, `Staging`, `FrontCheck`, `UploadClaim`): the streaming image checks, the sector
  buffer, the flash, and who may hold the claim.
- **Flash writes on two cores** (`FlashGuard`): spin locks that mask interrupts, a core that is frozen holding one.
- **Settings** (`Debounce`, `Settings`): the dirty bits, the signal, the quiet time and the write-behind task.
- **Frames between the cores** (`TripleBuffer`) and the **brightness handshake** (`Brightness`).
- **The breadcrumb** (`Breadcrumb`, `BreadcrumbCrash`, `BreadcrumbHonesty`, `BreadcrumbReport`, `BreadcrumbNotes`,
  `CrashLoop`, `CrashLoopCut`, `PanicMessage`): a record that survives resets, written a word at a time, and the recogniser that fills its tail.
- **The art pipeline** (`Bayer`, `BlueNoise`, `Frames`, `Limiter`, `Pipeline`) and the page's **MD5** (`Md5`).

`Common`, `Words` and `Permutations` hold what several of them need.

A concurrent or interruptible piece is a machine: a state, events fine enough that every shared access is one, and
`Run`, which takes any sequence of events. An invariant is proved for every event, and the theorems are about every
run. Where the source changes fields in place there is also a class, whose methods are tied to the machine's steps or
to a function of the old state. Code that only computes is functions, and a loop that computes is a method proved
equal to one.

## What turned out not to hold

The code was followed where its documentation says otherwise. Each of these is stated with the condition under which
the code does what the documentation says, and with an input for which it does not.

- **An activation cut between its two writes** is said to leave the new slot `Undefined` (`firmware/src/ota.rs:980-986`).
  The first write keeps the state of the entry it lands on, and from the second confirmed update on that is `VALID`:
  the next boot takes an image nobody vouches for as settled, and every reset boots it again
  (`RollbackSafety.HoleExactlyWhen`, `InterruptedActivation`, `HoleIsPermanent`, `TwoUpdatesReachTheHole`).
- **After a failed activation** the task that serves activations has returned. An activation is still going to be
  served exactly when none has failed since the device came up; one that is not leaves every upload refused until a
  reset (`RollbackSafety.ServedExactlyWhen`, `ActivationAfterAFailureHangs`, `ASecondActivationHangs`).
- **A second upload can stage over an activation.** The slot is asked for before a wait and not again when the claim
  is taken (`firmware/src/ota.rs:476-500`), so a handler goes ahead exactly when the activation was requested after it asked
  (`UploadClaim.ClaimsASpokenSlotExactlyWhen`, `AnActivatedSlotIsStagedOver`). Rollback safety is proved with such
  uploads allowed.
- **"Refused before the first erase"** (`firmware/src/ota.rs:577-581`) holds for a header exactly if all 24 bytes
  of it arrived: a one-byte body erases a sector (`FrontCheck.WrongHeaderErasesNothingExactlyWhen`,
  `ShortBodyIsErasedFirst`). A wrong descriptor is found exactly if all 112 bytes up to its end arrived and the
  image's segments do not end before that, unless the segment table or the checksum is found wrong first
  (`FrontCheck.WrongDescriptorErasesNothingExactlyWhen`, `WrongDescriptorIsErasedFirst`).
- **A half-written breadcrumb** is said to read back as invalid (`firmware/src/panic.rs:251-253`). It is accepted
  exactly when the changes made so far cancel out in the checksum: always after the second word of the first quick
  panic since power-on (`BreadcrumbCrash.RecordAcceptedExactlyWhen`, `TwoCountsAreAccepted`, `HalfARecordIsAccepted`).
- **The crash-loop guard** (`firmware/src/panic.rs:64-83`) is exact when every record is finished (`CrashLoop`). A
  record that is cut is counted as far as it got if its changes cancel out, and otherwise takes the count and the
  latch of all before it along: a panic cut after its first word forgets everything, and the fifth quick panic cut
  after its second is counted and does not latch (`CrashLoopCut.CutPanicExactly`, `GuardIsTheCutFold`,
  `CutAfterOneWordForgets`, `FifthIsCountedAndNotLatched`).
- **A trial that resets** is rolled back (`firmware/src/ota.rs:783-786`) exactly when its entry says it is on trial. If
  the activation was cut and the mark could not be written at the boot, the same image runs once more
  (`RollbackSafety.UnprovenIsLeftExactlyWhenPending`, `DeadlineRollsBackExactlyWhen`, `AnUnmarkedTrialRuns`).
- **A brightness change** can reach one framebuffer and not the other (`firmware/src/main.rs:397-399`), if it and its
  announcement fall between core 1's reading of the settings and its decrement, and only then
  (`Brightness.BothBuffersExactlyWhenNotMissed`, `OutsideTheWindowNothingIsLost`, `TwoBuffersDisagree`).
- **The bench override's time box** (`firmware/src/main.rs:473-475`) is looked at only while the window is being
  computed, which nothing causes once both buffers are written: the override is taken back exactly in a turn that
  found the count above zero, found an override, and read a clock past the deadline it then loaded. So it may stay for
  ever; and one set meanwhile, or judged by the deadline of the one before, is gone before its time
  (`Brightness.TakenBackExactlyWhen`, `TheOverrideOutlivesItsDeadline`, `AnOverrideOutOfTime`,
  `AFreshOverrideIsTakenBack`, `TheDeadlineBeforeItCounts`).
- **The limiter** reports a gain between 0.9999 and 1 that it does not apply, so a frame can leave just over the cap
  (`Limiter.ReportIsTrueExactlyWhen`, `InGamutUnderTheCapExactlyWhen`, `JustOverTheCapIsLetOut`). And with a channel
  over one a frame leaves brighter than is reported: one that is dimmed by the cap alone leaves under the cap exactly
  when no channel is over one, and may leave at twice the cap (`Limiter.UnderTheCapExactlyWhen`,
  `DimmedByTheCapExactlyWhen`, `OverOneLeavesAtTwiceTheCap`, `Frames.ScaledMeansExactlyWhen`, `ScaledDutySpills`).

## Model

| member | source | states |
|---|---|---|
| TripleBuffer.SwapsKeepOwnership | firmware/src/fb.rs:37-40 | A publish and an acquire leave the producer's, the consumer's and the shared index a permutation of the three slots |
| TripleBuffer.Slots.Split | firmware/src/fb.rs:75-81 | The two ends own slots 0 and 1 of the same memory |
| TripleBuffer.Producer.Compose | firmware/src/fb.rs:96-99 | Writing the back buffer changes the producer's own slot and nothing else |
| TripleBuffer.Producer.Publish | firmware/src/fb.rs:106-109 | One swap: the composed slot becomes the newest, the producer takes the slot it replaces |
| TripleBuffer.Consumer.Acquire | firmware/src/fb.rs:124-131 | False without a fresh frame and nothing changed, true after the swap |
| TripleBuffer.FrontIsNeverWritten | firmware/src/fb.rs:37-40 | In every interleaving the three indices are 0, 1 and 2, and only the consumer's own swap changes the frame it shows |
| TripleBuffer.AcquireIsNewest | firmware/src/fb.rs:118-131 | A true acquire gives the latest publish at its swap, one made between its load and its swap included, with a number above all before it |
| TripleBuffer.NewFrameIsShown | firmware/src/fb.rs:96-138 | From every point of every run a frame that is drawn, published and then acquired is the one that is shown |
| TripleBuffer.EveryPublishHasOneFate | firmware/src/fb.rs:101-131 | Every published frame is exactly one of shown (once), superseded or pending |
| TripleBuffer.RefinesNewestValueRegister | firmware/src/fb.rs:101-138 | The answers of acquire are those of a sequential newest-value register, each call taking effect at one of its own accesses |
| FlashGuard.WindowIsQuiet | firmware/src/store.rs:176-195 | With the guard, while core 1 is parked it is in no critical section, core 0 runs no handler, and only core 0's next step can happen |
| FlashGuard.GuardedReachesUnpark | firmware/src/store.rs:145-208 | From every reachable state in which core 1 is parked, core 0 alone reaches the un-park in a counted number of steps, none of which waits |
| FlashGuard.StuckExactlyWhen | firmware/src/store.rs:148-174 | The one deadlock there is, guarded or not: core 0's handler spins on a lock that the frozen core 1 holds |
| FlashGuard.GuardedIsNeverStuck | firmware/src/store.rs:176-208 | With the guard no reachable state is a deadlock |
| FlashGuard.UnguardedWedges | firmware/src/store.rs:158-174 | With masking only inside the ROM call: a run that ends with neither core able to move, just before the un-park |
| FlashGuard.StuckIsForEver | firmware/src/store.rs:166-174 | From a deadlock no event of either core is possible |
| FlashGuard.LocksAreExclusive | firmware/src/store.rs:145-208 | In every run, guarded or not, no lock is held by two of core 0's task, its handler and core 1; a ROM call is made with core 1 parked and the driver's lock held |
| FlashGuard.HandlerComesAndGoes | firmware/src/store.rs:158-174 | An interrupt's handler waits for the lock it wants, has it for one step and is gone |
| FlashGuard.EverythingComesToRest | firmware/src/store.rs:145-208 | From every point of every guarded run, if nothing new is started, all comes to rest in a bounded number of steps, after exactly as many ROM calls as there are sectors left to do |
| FlashGuard.OperationDoesEverySector | firmware/src/store.rs:145-208 | An operation on n sectors makes n ROM calls and then all is at rest |
| Rollback.SomethingAlwaysBoots | crates/otastate/src/model.rs:286-460 | After any run, whatever was interrupted, refused or staged, the boot loader finds an image to boot, and the running one is bootable |
| Otadata.FirstChoiceExactly | crates/otastate/src/model.rs:286-310 | The boot loader goes by the higher of the numbers it can use, by entry one if they are equal; odd numbers are the first app slot's; with neither it begins with the first |
| Otadata.SelectsTheNextNumber | crates/otastate/src/model.rs:230-260 | The number a selection writes, to the entry that is not current, is the lowest above the current one that is the slot's; none if the current one is |
| RollbackSafety.InvRun | firmware/src/ota.rs:783-786 | In every run that does not leave an activation in the hole there is a VALID entry whose image is bootable and vouched for, and the other entry is older, newer and undecided, or damaged |
| RollbackSafety.OnlyProvenImagesRun | firmware/src/ota.rs:440-461 | The running image is vouched for, or on an undecided trial with a way back |
| RollbackSafety.WayBackIsNeverWritten | firmware/src/ota.rs:440-461 | While a trial is undecided nothing writes the previous image or the entry that keeps it bootable |
| RollbackSafety.ValidOnlyByConfirm | firmware/src/ota.rs:1272-1334 | An entry comes to say VALID only by the running image's confirmation of its own trial, after a minute, with an address, a frame shown and a request served or two minutes gone; by the boot loader's first write; or by the hole |
| RollbackSafety.TrialIsDecidedExactly | firmware/src/ota.rs:1272-1370 | In every run, for every health and every fate of the write (one that is cut leaves the entry erased or torn): a tick makes the entry VALID and the image vouched for exactly when the write lands and it has been up a minute, has an address, has shown a frame and has served a request or been up two minutes; it gives the image up exactly when that is not so and three minutes have passed |
| RollbackSafety.DecidesExactly | crates/otastate/src/lib.rs:91-122 | The same of the decision alone; with the deadline past only a missing address or a missing frame gives an image up |
| RollbackSafety.VouchedExactlyWhen | firmware/src/ota.rs:1306-1334 | In every run an image is vouched for exactly when it was put there over serial or confirmed itself on its own undecided trial, and has not been staged over since |
| RollbackSafety.RebootIsARun | crates/otastate/src/model.rs:392-460 | A reset, the boot loader's steps and the classification, uninterrupted, are a run of the machine |
| RollbackSafety.RebootOutcome | crates/otastate/src/model.rs:286-310 | Which image a reset ends up running, with which classification and which entries, from any anchored device |
| RollbackSafety.TrialThatResetsIsRolledBack | firmware/src/ota.rs:783-786 | A trial that resets before it confirms is followed by the previous image, which reports an abort |
| RollbackSafety.DeadlineRollsBack | firmware/src/ota.rs:1343-1370 | A trial three minutes old that has no address or has shown no frame is followed by the previous image, whether or not its last write worked |
| RollbackSafety.UnprovenIsLeftExactlyWhenPending | firmware/src/ota.rs:1044-1069 | A reset of an image nobody vouches for is followed by the previous one exactly when its entry says it is on trial; otherwise the same image boots again and is then on trial |
| RollbackSafety.DeadlineRollsBackExactlyWhen | firmware/src/ota.rs:1343-1370 | For such a trial the previous image comes back exactly when the entry says it is on trial or the last write is not refused |
| RollbackSafety.AnUnmarkedTrialRuns | firmware/src/ota.rs:1044-1069 | A run to an unproven image whose entry does not say it is on trial: an activation cut between its writes, and a mark that is refused |
| RollbackSafety.ActivationBootsOnTrial | firmware/src/ota.rs:1400-1451 | An activation whose two writes land boots the staged image on trial |
| RollbackSafety.ConfirmedStays | firmware/src/ota.rs:1306-1334 | An image that has proved itself by those conditions, and whose write lands, is what every later boot runs, settled |
| RollbackSafety.HoleExactlyWhen | firmware/src/ota.rs:976-1005 | The first write of an activation leaves the new number on a VALID entry exactly when it was needed and the entry it landed on was live |
| RollbackSafety.InterruptedActivation | firmware/src/ota.rs:980-986 | Power lost between the two writes: the next boot is proven exactly when the device was not in the hole |
| RollbackSafety.HoleIsPermanent | firmware/src/ota.rs:1054-1069 | In the hole the unproven image is settled and every further reset boots it again |
| RollbackSafety.TwoUpdatesReachTheHole | firmware/src/ota.rs:988-1005 | Two ordinary updates from a serial flash reach the hole |
| RollbackSafety.AliveExactlyWhen | firmware/src/ota.rs:1400-1443 | In every run the activation task is there exactly when no write of an activation has failed since the boot was classified |
| RollbackSafety.ServedExactlyWhen | firmware/src/ota.rs:1383-1443 | In every run an activation that has been asked for can still begin exactly when no write of one has failed since the boot was classified |
| RollbackSafety.ARequestStands | firmware/src/ota.rs:1383-1443 | Only an accepted image that was to be activated sets the request, it stands until its own writes or a reset have dealt with it, and an upload can always be ended and gives back its claim alone |
| RollbackSafety.ActivationAfterAFailureHangs | firmware/src/ota.rs:1400-1443 | Once a write of an activation has failed, a later request keeps every upload refused and activates nothing until a reset |
| RollbackSafety.ASecondActivationHangs | firmware/src/ota.rs:1423-1443 | A run that ends so: the first write refused, the image uploaded again and accepted |
| OtaFirmware.Firmware.ReadCurrent | crates/otastate/src/model.rs:157-215 | The entry taken for current is the readable one with the higher number |
| OtaFirmware.Firmware.WriteState | firmware/src/ota.rs:961-974 | Rewrites the current entry with the state, keeping its number; an unreadable otadata is left alone |
| OtaFirmware.Firmware.WriteSelected | crates/otastate/src/model.rs:230-260 | Selects a slot by a higher number on the entry that is not current, which keeps its state; no write if it is selected already |
| OtaFirmware.Firmware.NoteBoot | firmware/src/ota.rs:1044-1069 | The boot's classification, and the one write that puts an image that was selected and never marked on trial, as the machine has it |
| OtaFirmware.Firmware.TrialTick | firmware/src/ota.rs:1272-1370 | One turn of the trial task, on the fields of its health and with the times written out: wait, confirm or revert, whatever becomes of the write, as the machine has it |
| OtaFirmware.Firmware.Activate | firmware/src/ota.rs:988-1005 | The two writes of an activation in order, and what a failure of either leaves, as the machine has it |
| ImageScan.StepIsBytes | crates/fwimage/src/lib.rs:431-532 | One turn of the scanner over a piece equals that many single bytes, errors included |
| ImageScan.FeedIsBytes | crates/fwimage/src/lib.rs:408-424 | The scanner is a fold over the bytes |
| ImageScan.SplitsAgree | crates/fwimage/src/lib.rs:387-424 | Whatever pieces a body comes in: if it fits the slot the scanner ends in the same state or with the same error, and if it does not it is refused |
| ImageScan.BytesFollow | crates/fwimage/src/lib.rs:431-612 | What has been hashed, the front copy, the digest and the alignment of the checksum byte, as functions of the bytes seen |
| ImageScan.AcceptedMeans | crates/fwimage/src/lib.rs:619-660 | An accepted body begins with 0xE9, has at most sixteen segments, is for this chip, says it has a digest and names this project, byte by byte; its version is bytes 48 to 79; its image ends on sixteen bytes with its own digest, which is of everything before it |
| ImageScan.HeaderErrorExactly | crates/fwimage/src/lib.rs:554-577 | Which error the header's bytes give, each exactly, and none exactly when they are right |
| ImageScan.AppDescErrorExactly | crates/fwimage/src/lib.rs:581-612 | The descriptor passes exactly when it begins with its magic number and names "screeny-fw" and nothing after it; otherwise it is another project's |
| ImageScan.FrontIsOursExactlyWhen | crates/fwimage/src/lib.rs:554-612 | Neither check finds an error exactly when these are the front's bytes |
| ImageFormat.AcceptedExactlyWhen | crates/fwimage/src/lib.rs:431-660 | A body that fits is answered with success exactly when it is a well-formed image, as one who writes it lays it out, and anything after it: header, segments with their lengths, the fewest bytes of padding, the exclusive or of 0xEF and all the data ending a block of sixteen, and the digest of all that |
| ImageFormat.WrittenIsAccepted | crates/fwimage/src/lib.rs:431-660 | Whatever is laid out so is accepted |
| ImageFormat.AcceptedIsWritten | crates/fwimage/src/lib.rs:431-660 | Whatever is accepted can be taken apart into the parts it was laid out from |
| ImageFormat.LaidIsRead | crates/fwimage/src/lib.rs:444-491 | Segments laid out one after the other are read back: where they end, and the checksum of their data |
| ImageFormat.ReadIsLaid | crates/fwimage/src/lib.rs:444-491 | A segment table that is read to its end is segments laid out one after the other |
| ImageFormat.ThereAreImages | crates/fwimage/src/lib.rs:431-660 | There is an image to accept, whatever the digest is |
| ImageFormat.XorAllIs | crates/fwimage/src/lib.rs:481-485 | The checksum is the exclusive or of the bytes, one after the other |
| Staging.EachSectorOnce | firmware/src/ota.rs:304-358 | Each sector is erased once, immediately before the one write to it |
| Staging.OpsInSlot | crates/fwimage/src/lib.rs:135-144 | No operation of a body that fits leaves the slot |
| Staging.PlannedExactlyWhen | crates/fwimage/src/lib.rs:135-144 | A write goes ahead exactly when its bytes are some of one sector's first and of the slot's; it is too large only if it ends past the slot |
| Staging.Slot.StageSector | firmware/src/ota.rs:304-358 | One sector is erased and then programmed; with no fault it holds the data and erased bytes; nothing outside it changes, with a fault either |
| Staging.Upload.constructor | firmware/src/ota.rs:523-541 | Nothing received, nothing written, a buffer with room |
| Staging.Upload.WriteOut | firmware/src/ota.rs:600-633 | The buffer, padded to a word, becomes the slot's next sector, and the slot then begins with what was received |
| Staging.Upload.Flush | firmware/src/ota.rs:589-633 | Nothing to do, a sector written, a front check that failed with nothing asked of the flash, or a flash fault |
| Staging.Upload.Took | firmware/src/ota.rs:572-586 | The bytes just read are added to those received, spare has room again, the flash is asked for nothing outside the slot, and for nothing at all unless the front check passed |
| Staging.Upload.VerifyFlash | firmware/src/ota.rs:674-708 | True exactly when the hash of what is in the slot is the digest |
| Staging.Upload.Finish | firmware/src/ota.rs:641-657 | On success the slot begins with the received bytes in order, written is their count and their hash is the digest; with no fault the answer is the verdict on the received bytes |
| Staging.GoodExactlyUpTo | crates/fwimage/src/lib.rs:408-426 | The scanner is content with the front of a body exactly up to its first fault |
| Staging.RefusedOps | firmware/src/ota.rs:572-586 | When bytes within one sector are refused, what has been asked of the flash is what this body asks for however it is cut |
| Staging.Upload.Pull | firmware/src/http.rs:1186-1218 | One read and its account: with no fault, a refusal and the operations so far are those of every cut |
| Staging.Upload.Receive | firmware/src/http.rs:1186-1218 | For every way the body is cut into reads, refused or not: with no fault the same answer, the same operations and the same slot, and success only for an image of this project for this chip, byte by byte; with any faults nothing outside the slot, and the first erase asked for exactly when the front check passes on the first sector |
| Staging.RefusalIsTheVerdict | firmware/src/ota.rs:572-586 | A body refused part way would have been refused with that error however it came |
| FrontCheck.ShortBodyIsErasedFirst | crates/fwimage/src/lib.rs:662-682 | A body shorter than a header passes the front check and is then refused |
| FrontCheck.WrongHeaderErasesNothingExactlyWhen | firmware/src/ota.rs:577-581 | A body with a wrong or unfinished header erases nothing exactly when all 24 bytes of the header are there |
| FrontCheck.ScanFinds | crates/fwimage/src/lib.rs:431-551 | For every body with a good header the scanner's fault, its copy of the front, where the digest begins and whether all of it is there is what the segment table read off the body says |
| FrontCheck.FrontPassedExactlyWhen | crates/fwimage/src/lib.rs:660-682 | For every body with a good header: the first sector is erased exactly when its part of the segment table is not broken, its checksum, if there, is right, and a wrong descriptor is cut short by the end of the table or of the body |
| FrontCheck.WrongDescriptorErasesNothingExactlyWhen | firmware/src/ota.rs:577-581 | A body whose descriptor is wrong or not all there erases nothing exactly when its table is broken, its checksum wrong, or all 112 bytes are there and its segments do not end before them |
| FrontCheck.WrongDescriptorIsRefused | crates/fwimage/src/lib.rs:619-658 | Such a body is refused in the end |
| FrontCheck.WrongDescriptorIsErasedFirst | crates/fwimage/src/lib.rs:674-682 | A body of 112 bytes with no segments, all of whose descriptor is wrong, passes the front check and is then refused |
| UploadClaim.ClaimIsExclusive | firmware/src/ota.rs:476-543 | For any number of handlers: the claim is set exactly while one is past the compare-exchange and has not given it back |
| UploadClaim.EverythingIsPutBack | firmware/src/ota.rs:757-767 | Whenever the claim is free the percentage is 255, the upload mark is off and the dither setting is the one asked for outside |
| UploadClaim.MarkedExactlyWhileUploading | firmware/src/ota.rs:513-543 | The mark that survives a reset is set exactly while an Upload exists |
| UploadClaim.ClaimsASpokenSlotExactlyWhen | firmware/src/ota.rs:476-500 | In every run a waiting handler gets the claim exactly when nobody holds it, and the slot it gets is spoken for exactly when an activation that has not failed was requested after it asked |
| UploadClaim.AnActivatedSlotIsStagedOver | firmware/src/ota.rs:476-500 | A run of two handlers in which it happens |
| UploadClaim.Flags.Refused | firmware/src/ota.rs:440-461 | Too large before any flag is looked at; otherwise the machine's step of asking, which leaves the handler waiting or not |
| UploadClaim.Flags.Start | firmware/src/ota.rs:495-543 | Busy, no room with the claim given back, or everything taken and the setting from outside remembered, as the machine's steps; the slot is then spoken for exactly when that came about since the handler asked |
| UploadClaim.Flags.End | firmware/src/ota.rs:757-767 | The machine's steps of ending: the flags idle again and the dither setting what was asked for outside the upload |
| Debounce.ZeroExactlyWhenDue | crates/settings/src/debounce.rs:98-104 | The sleep is zero exactly when a field is due, and never longer than the quiet time |
| Debounce.DueExactlyAfterTheSleep | crates/settings/src/debounce.rs:77-104 | A field is due after the sleep that was asked for, and not before |
| Debounce.HandedOutExactlyWhen | crates/settings/src/debounce.rs:77-104 | A field is handed out exactly when it has not changed for three seconds and no field before it has; a clock behind the change counts as the change having just been made |
| Debounce.Timers.NoteChange | crates/settings/src/debounce.rs:67-70 | Restarts that field's timer and no other |
| Debounce.Timers.Due | crates/settings/src/debounce.rs:77-90 | Hands out the first field that has been quiet long enough and forgets it, or none if there is none |
| Debounce.Timers.IsIdle | crates/settings/src/debounce.rs:92-96 | True exactly when no timer is running |
| Debounce.Timers.NextDueInMs | crates/settings/src/debounce.rs:98-104 | The shortest time any running timer has left, none if none is running |
| Settings.InvRun | firmware/src/store.rs:131-139 | The invariant of the cache under every interleaving of handlers and task |
| Settings.NeverLost | firmware/src/store.rs:902-981 | A change not yet in flash is covered by a handler between its steps, a bit, a timer or a commit in flight, or its last write failed |
| Settings.NeverSleepsOverABit | firmware/src/store.rs:902-913 | When the task sleeps without a deadline and nobody is about to wake it, no bit is set and no timer runs |
| Settings.NeverOversleeps | firmware/src/store.rs:905-913 | With a timer running the task has a deadline, never past three seconds after any field's change |
| Settings.AtRestFlashIsLive | firmware/src/store.rs:902-981 | At rest flash holds the last value of every field whose last write did not fail |
| Settings.EverythingReachesFlash | firmware/src/store.rs:902-981 | From every reachable state without a failed write, the handlers and the task alone come to rest with flash equal to the live values |
| Settings.EveryChangeReachesFlash | firmware/src/store.rs:902-981 | A setting can be changed at any point of any run without a failed write, and flash ends up with the new value and everything else that was live |
| Settings.SleepsUntilWoken | firmware/src/store.rs:905-913 | In every run the task sleeps until it is woken, and no longer than its deadline if it has one |
| Settings.Cache.NoteDirty | firmware/src/store.rs:136-139 | The bit and then the signal, as two steps of the machine |
| Settings.Cache.Decide | firmware/src/store.rs:905-913 | How long the task sleeps, as its step of the machine |
| Settings.Cache.TakeBits | firmware/src/store.rs:915-925 | The bits are taken and their timers started, as two steps of the machine |
| Settings.Cache.CommitOne | firmware/src/store.rs:927-981 | One turn of the commit loop, its write succeeding or not, as steps of the machine |
| Breadcrumb.Crumb.ReadChecksum | firmware/src/panic.rs:243-249 | The salt and the thirteen words above |
| Breadcrumb.Crumb.Wipe | firmware/src/panic.rs:275-281 | Exactly these writes in this order, and what they leave |
| Breadcrumb.Crumb.Boot | firmware/src/panic.rs:428-501 | The writes of a boot in order; it answers the latch that the report has after the count and before the upload bit is cleared |
| Breadcrumb.Crumb.SetInUpload | firmware/src/panic.rs:512-528 | The writes in order, none if nothing changes |
| Breadcrumb.Crumb.NoteUploadSector | firmware/src/panic.rs:535-541 | The writes in order, none if the region is not intact |
| Breadcrumb.Crumb.Record | firmware/src/panic.rs:675-710 | The writes of a panic's record in order; it answers the latch as it was before them |
| Breadcrumb.Crumb.RecordWhat | firmware/src/panic.rs:730-746 | The writes of the tail in order, the count it is for last but one |
| Breadcrumb.Crumb.ReadReport | firmware/src/panic.rs:378-412 | What the words say: nothing if not intact, no panic without its flag, no message without an intact tail for this count |
| BreadcrumbCrash.ChecksumApply | firmware/src/panic.rs:243-256 | The checksum of an updated region is the old one and the exclusive or of all the changes |
| BreadcrumbCrash.AcceptedExactlyWhen | firmware/src/panic.rs:251-260 | Part of an update is accepted exactly when its changes cancel out |
| BreadcrumbCrash.ShortUpdateIsAtomic | firmware/src/panic.rs:251-256 | With one or two words before the checksum, a reset after any write leaves the region not accepted, exactly old or exactly new |
| BreadcrumbCrash.WipeLeavesEmpty | firmware/src/panic.rs:275-281 | Whatever was there, a wipe leaves the same intact region |
| BreadcrumbCrash.WipeIsAtomic | firmware/src/panic.rs:275-281 | A reset during a wipe leaves the region as it was, not accepted, or empty |
| BreadcrumbCrash.CountIsAtomic | firmware/src/panic.rs:446-448 | The same for the count of a boot |
| BreadcrumbCrash.UploadIsAtomic | firmware/src/panic.rs:512-528 | The same for the upload mark, repair included |
| BreadcrumbCrash.SectorIsAtomic | firmware/src/panic.rs:535-541 | The same for the sector count |
| BreadcrumbCrash.RecordAcceptedExactlyWhen | firmware/src/panic.rs:675-710 | A record cut after any of its nine words is accepted exactly when the changes so far cancel out |
| BreadcrumbCrash.TwoCountsAreAccepted | firmware/src/panic.rs:684-692 | After the second word of a quick panic, with the two counts equal, the region is accepted with the new counts and everything else as it was |
| BreadcrumbCrash.HalfARecordIsAccepted | firmware/src/panic.rs:675-710 | The first boot since power-on and a quick panic cut there: the report says one panic and has none to show |
| BreadcrumbHonesty.RunIsHonest | firmware/src/panic.rs:177-187 | In every run of boots, notes and panics, each cut after any word, a tail whose count is the head's was written by the panic the head was |
| BreadcrumbHonesty.MessageAndPlaceAreOnePanics | firmware/src/panic.rs:378-412 | Below 2^32 panics, a message that is reported and its numbers, file, line and uptime all come from one panic of the run |
| BreadcrumbHonesty.TailForThisCountIsThisPanics | firmware/src/panic.rs:262-273 | The same from the words alone: the tail's checksum has no part in it |
| BreadcrumbHonesty.StuckCountMixesPanics | firmware/src/panic.rs:692 | Where the count has saturated, a panic cut between its two halves is shown with the message of the one before |
| BreadcrumbReport.ReportIsOfTheRun | firmware/src/panic.rs:378-412 | In every run of finished operations the report counts the boots and the panics, and shows the last panic as it was: time, place, the boot it was in, how many quick ones in a row, its message and its numbers; and it says halt exactly when five in a row were reached |
| BreadcrumbNotes.NotesAreOfTheRun | firmware/src/panic.rs:437-541 | In every run of finished operations the next boot finds the mark of an upload exactly when the last boot or note of an upload was one that began, with the sectors noted since it last changed, and the reset reason of the boot before |
| BreadcrumbNotes.IntactExactly | firmware/src/panic.rs:243-273 | The record is accepted exactly when its first word is the magic number and its fourteen words together are the salt; its message exactly when the seventeen are theirs and the first is the count of panics |
| BreadcrumbNotes.WipedExactly | firmware/src/panic.rs:275-281 | A wipe leaves the magic number, the checksum of it alone, and twenty-nine zeros |
| CrashLoop.GuardIsTheFold | firmware/src/panic.rs:684-709 | The run counter is the fold over the panics and the latch is set exactly when the fold has ever been five |
| CrashLoop.ResetsExactlyUntilReached | firmware/src/panic.rs:679-710 | A panic resets the chip exactly when five in a row had not been reached before it |
| CrashLoop.BootHaltsExactlyWhenReached | firmware/src/main.rs:1160-1186 | A boot is told not to start exactly when five in a row have been reached |
| CrashLoop.AtMostFiveResets | firmware/src/panic.rs:64-83 | If every panic since power-on is quick, the first five reset the chip and no other |
| CrashLoop.FiveQuickOnesLatch | firmware/src/panic.rs:64-83 | From any history five quick panics in a row latch the guard, and it stays latched |
| CrashLoopCut.GuardIsTheCutFold | firmware/src/panic.rs:675-710 | In every run of boots, notes and panics, each cut after any word: the guard is gone where a cut leaves a region that is not accepted, and is otherwise moved by the panics alone, each as far as its record got |
| CrashLoopCut.CutPanicExactly | firmware/src/panic.rs:684-709 | A cut panic loses the guard exactly when some of the record's words but not its checksum are written and do not cancel out; otherwise it counts from its second word and latches from its ninth |
| CrashLoopCut.GuardDecides | firmware/src/panic.rs:428-448 | From any region: a boot is told not to start, and a panic halts, exactly when this guard is latched |
| CrashLoopCut.CutAfterOneWordForgets | firmware/src/panic.rs:691-692 | A panic cut after its first word forgets the count and the latch |
| CrashLoopCut.FifthIsCountedAndNotLatched | firmware/src/panic.rs:691-709 | The fifth quick panic since power-on, cut after its second word, is counted and does not latch |
| CrashLoopCut.LatchedOnlyByAPanicThatFlags | firmware/src/panic.rs:704-709 | If no panic of a run gets as far as its flags, the latch is never set, however many there are |
| PanicMessage.WhatSink.TakeByte | firmware/src/panic.rs:791-833 | One byte keeps the sink's text, numbers and scan state those of everything taken so far |
| PanicMessage.WhatSink.WriteStr | firmware/src/panic.rs:841-851 | Takes bytes until the message is enough, and answers an error exactly then |
| PanicMessage.Recognise | firmware/src/panic.rs:730-739 | However the message is split into writes, text and numbers are the batch functions of the part that is scanned |
| PanicMessage.StopIsScanned | firmware/src/panic.rs:836-851 | Stopping at the first prefix that is enough is scanning |
| PanicMessage.NumbersOfTheHead | firmware/src/panic.rs:757-764 | The two numbers are those of the first 1024 bytes, however early the scan stopped |
| PanicMessage.MessageIsClean | firmware/src/panic.rs:854-870 | Nothing kept has to be escaped, and no repeat of the dropped opening is kept |
| PanicMessage.ShownExactly | firmware/src/panic.rs:853-864 | A printable byte other than the six that would have to be escaped is itself, a tab or a carriage return is a space, anything else is a question mark |
| PanicMessage.FirstLineIsKept | firmware/src/panic.rs:791-864 | The first line that is not blank is kept, byte for byte up to 48 of them, after any blanks and any repeats of the exception handler's opening words, each byte as it is shown |
| PanicMessage.NumberIsReadBack | firmware/src/panic.rs:791-833 | A number written in decimal after the first of its tag, and followed by anything but a digit, is read back, modulo 2^32 |
| PanicMessage.PushWraps | firmware/src/panic.rs:791-833 | A number with one more digit, modulo 2^32, is the source's two wrapping operations |
| Brightness.NeverUnderflows | firmware/src/main.rs:537-550 | The count stays between zero and two, and is at least one whenever it is decremented |
| Brightness.EveryAnnouncementIsServed | firmware/src/main.rs:531-566 | From every point of every run: once core 0 stops, at most sixty-one accesses of core 1 bring the count to zero, and both buffers then have the window the settings ask for exactly when the last store of 2 was not missed |
| Brightness.BothBuffersExactlyWhenNotMissed | firmware/src/main.rs:397-399 | In every run, with the count at zero and no handler half done, both buffers have the window the settings ask for exactly when the last store of 2 did not come between the reading of something since changed and the decrement |
| Brightness.OutsideTheWindowNothingIsLost | firmware/src/main.rs:537-565 | The only way to lose a change is that it and the last store of 2 both fall into one turn of core 1's, before its decrement |
| Brightness.TwoBuffersDisagree | firmware/src/main.rs:545-550 | A run through that window ends with the count at zero and two different buffers |
| Brightness.TakenBackExactlyWhen | firmware/src/main.rs:470-482 | In every run, whatever core 0 does in between: core 1 takes an override back exactly in a turn that found the count above zero, found an override, and read a clock past the deadline it then loaded |
| Brightness.TheOverrideOutlivesItsDeadline | firmware/src/main.rs:537-543 | From any point of a run with the count at zero, however long nothing is announced, core 1 takes no override back, and one that core 0 does not change stays |
| Brightness.AnOverrideOutOfTime | firmware/src/main.rs:470-484 | A run to such a point: an override set, both buffers showing it, and its deadline passed |
| Brightness.AFreshOverrideIsTakenBack | firmware/src/main.rs:471-477 | A run in which an override set between core 1's test of the one before and its store is lost with ten seconds left |
| Brightness.TheDeadlineBeforeItCounts | firmware/src/receiver.rs:445-450 | A run in which an override is lost because its deadline is stored after it |
| Brightness.FinishedIsHandled | firmware/src/receiver.rs:177-181 | What each of the four handlers leaves when nothing comes between its stores |
| Brightness.Display.SetLevel | firmware/src/receiver.rs:177-181 | A new level and no override, announced once, as a handler of the run; nothing if the level is the same |
| Brightness.Display.SetTimedOverride | firmware/src/receiver.rs:445-450 | The override, then its deadline, then the announcement, as a handler of the run |
| Brightness.Display.SetScreenLevel | firmware/src/net.rs:403-413 | The screen's brightness, announced if it changed, as a handler of the run |
| Brightness.Display.ShowsWhatIsSet | firmware/src/main.rs:397-399 | After any handlers and turns, with the count at zero both buffers show what is set |
| Brightness.Display.TakeBack | firmware/src/main.rs:476-479 | An override taken back and the count set, as two steps of the machine |
| Brightness.Display.Target | firmware/src/main.rs:470-493 | The override's slots while its time lasts, or the screen's, or the setting's, read no further than needed, as steps of the machine |
| Brightness.SlotsForExactly | firmware/src/display.rs:106-121 | No slots exactly for level zero; otherwise the nearest number to the level's share of them all, or one if that is none; all of them at 255 |
| Brightness.SlotsForRises | firmware/src/display.rs:106-121 | A higher level lights as many slots or more |
| Brightness.ClampedExactly | crates/receiver/src/lib.rs:160-192 | Never over the cap; zero stays zero; any other level is at least six, or the cap if that is less; a level between is itself |
| Brightness.LitExactly | firmware/vendor/hub75-framebuffer/src/bitplane/plain/frame.rs:304-326 | The window begins where it is told to and is as long as it is told to be, as far as the last slot allows |
| Brightness.PassedExactly | firmware/src/main.rs:476 | Whatever the clock's 32 bits say, a deadline of ten seconds is past exactly after ten seconds, for the twenty-four days a signed difference lasts |
| Brightness.PassedNoMore | firmware/src/main.rs:476 | And for as long again after that it is not |
| Brightness.AtRestTheLevelIsShown | firmware/src/main.rs:470-493 | In every run outside the window, at rest and without an override, both buffers light the slots of the screen's brightness under the cap, or of the setting if no screen asks: none for zero, and otherwise the nearest number to the level's share and one at least, from the start, as far as the last slot allows |
| Brightness.AtRestTheOverrideIsShown | firmware/src/main.rs:470-484 | The same with an override: as many slots as it says |
| Brightness.Display.Turn | firmware/src/main.rs:531-566 | One turn of the loop, as steps of the machine: the buffer that goes to the panel shows what is set, and an override is taken back exactly when the count is above zero and its time is up |
| Bayer.Bayer | crates/art/src/dither.rs:32-40 | The loop computes the interleaved value modulo 2^32 |
| Bayer.Bijection | crates/art/src/dither.rs:32-40 | Every order: a square of the matrix has one value, a value one square |
| Bayer.TopIsCoarser | crates/art/src/dither.rs:32-40 | The top 2k bits of a value are the value of order k at the same place |
| Bayer.TopIsTheRange | crates/art/src/dither.rs:32-40 | Those bits number the equal range the value is in |
| Bayer.OneOfEachInEveryBlock | crates/art/src/dither.rs:32-40 | Every aligned block of 2^k by 2^k squares has exactly one value in each of the 4^k equal ranges |
| Bayer.DistinctExactlyUpTo16 | crates/art/src/dither.rs:32-40 | In 32 bits the values are distinct exactly up to order 16 |
| Bayer.TileIsBalanced | crates/art/src/dither.rs:22-28 | A tile holds every value once, and its thresholds add up to exactly zero |
| BlueNoise.TargetExactlyWhen | crates/art/src/dither.rs:71-78 | A step of the bump reaches a square exactly when it is the square's displacement the shorter way round, which no other step has |
| BlueNoise.Bump | crates/art/src/dither.rs:70-78 | Adds one point's bump, wrapped around both edges, to every square and nothing else |
| BlueNoise.Choose | crates/art/src/dither.rs:61-66 | The first of the free squares with the least energy |
| BlueNoise.Build | crates/art/src/dither.rs:58-80 | The mask it builds gives every square the threshold of its place in the greedy order: all squares once, each the first of the free ones with the least energy, the energy being the tilt and the bumps so far |
| BlueNoise.GreedyIsUnique | crates/art/src/dither.rs:42-44 | The tilt and the bump settle the order |
| BlueNoise.MaskIsUnique | crates/art/src/dither.rs:42-44 | The mask is the same on every run: the tilt and the bump settle it |
| BlueNoise.MaskIsBalanced | crates/art/src/dither.rs:58-80 | The mask is a bijection onto the evenly spaced thresholds and adds up to exactly zero |
| Permutations.SumOfPermutation | crates/art/src/dither.rs:88-101 | Different numbers below their count add up to what they must |
| Permutations.ThresholdsOfPermutation | crates/art/src/dither.rs:88-101 | Evenly spaced thresholds, each once, add up to exactly zero |
| Permutations.ThresholdIs | crates/art/src/dither.rs:25-26 | An earlier rank has the lower threshold, ranks are evenly spaced, and the first and the last are half a space from either end |
| Frames.ScaledPixels | crates/art/src/frame.rs:88-98 | Scaling an indexed frame's palette scales every pixel of the picture |
| Frames.MeansAreFractions | crates/art/src/limiter.rs:44-54 | The means of any frame are between zero and one |
| Frames.TruncatedLooksTheSame | crates/art/src/pipeline.rs:148-150 | Truncating a palette to 256 colours changes no pixel and no mean |
| Frames.IndexedIsItsColours | crates/art/src/frame.rs:71-87 | A palette and numbers have the means of the picture of the colours they stand for, black past the palette's end |
| Frames.ScaledMeansExactlyWhen | crates/art/src/limiter.rs:44-58 | The means of a dimmed frame are the dimmed means exactly when no channel of any pixel is over one |
| Frames.ScaledDutySpills | crates/art/src/limiter.rs:44-58 | The duty of any frame that is dimmed is the dimmed duty and what its channels over one keep, which is nothing exactly when there are none or it is dimmed to black |
| Frames.Picture.Scale | crates/art/src/frame.rs:90-98 | Multiplies every colour there is, in place |
| Frames.Picture.MeansNow | crates/art/src/limiter.rs:44-54 | The loop computes the means |
| Limiter.OneFrameIsSafe | crates/art/src/limiter.rs:81-115 | Zero, gain, power gain, target and one are in order; the reported duty is under the cap; luminance and red as reported rise by no more than the frame's limit |
| Limiter.RiseExactly | crates/art/src/limiter.rs:89-100 | A frame's limit is the configured rise a second, or 0.05 if that is more, times the frame's length held between a 120th and a tenth of a second |
| Limiter.OneFrameRises | crates/art/src/limiter.rs:81-115 | On the configuration and the time themselves: luminance and red as reported rise by no more than that, and the duty is under the cap |
| Limiter.NoDimmerThanNeeded | crates/art/src/limiter.rs:91-114 | The power gain falls at once to the cap's share and comes back by what half a second's decay leaves; below that the frame is dimmed only if its luminance or its red is then exactly as far up as it may be |
| Limiter.SwitchedOff | crates/art/src/limiter.rs:84-88 | Switched off it lets everything through, and begins again from full gain |
| Limiter.RiseOverASpan | crates/art/src/limiter.rs:81-115 | Over any span of frames the reported rises add up to no more than the limits do |
| Limiter.RiseOverTime | crates/art/src/limiter.rs:81-115 | With frames of ordinary length luminance and red rise, over any span, by no more than the limit a second times the seconds |
| Limiter.StrobeIsHeldDown | crates/art/src/limiter.rs:126-138 | Whatever was shown before it, after a black frame nothing gets brighter than the limit a second times the seconds since |
| Limiter.SteadyGreyComesUp | crates/art/src/limiter.rs:140-162 | From the start a steady grey comes up in a straight line to itself or the cap, and stays there |
| Limiter.SteadyWhiteSettles | crates/art/src/limiter.rs:140-150 | Steady white is at the cap exactly once the limit a second has allowed that much |
| Limiter.FirstWhiteFrame | crates/art/src/limiter.rs:81-115 | With the default limits the first white frame of a thirtieth of a second is let out at exactly two thirtieths |
| Limiter.LightOverASpan | crates/art/src/limiter.rs:81-115 | With every frame in gamut the light itself rises over any span by no more than the limits add up to, but for one part in ten thousand |
| Limiter.ReportIsTrueExactlyWhen | crates/art/src/limiter.rs:109-114 | When the reported means are those of the frame that is let out |
| Limiter.UnderTheCapExactlyWhen | crates/art/src/limiter.rs:90-114 | Every frame: what is let out is under the cap exactly when, dimmed, its reported duty and what its channels over one keep are, or, not dimmed, it came under it |
| Limiter.DimsExactlyWhen | crates/art/src/limiter.rs:90-111 | A frame is dimmed exactly when the state, its means and the time say so |
| Limiter.InGamutUnderTheCapExactlyWhen | crates/art/src/limiter.rs:90-114 | In gamut: under the cap exactly when it came under it or is dimmed, and never over by more than one part in ten thousand |
| Limiter.DimmedByTheCapExactlyWhen | crates/art/src/limiter.rs:90-114 | A frame dimmed by the cap alone leaves under the cap exactly when no channel of it is over one |
| Limiter.OverOneLeavesAtTwiceTheCap | crates/art/src/limiter.rs:82-114 | A frame with every channel at two leaves at twice the cap, and is reported as at the cap |
| Limiter.JustOverTheCapIsLetOut | crates/art/src/limiter.rs:109-111 | A frame just over the cap that is let out as it came, and reported as under it |
| Limiter.MeansOfOneChannel | crates/art/src/color.rs:54-63 | What a flat frame of one channel weighs in the luminance, and that each channel is a third of the duty |
| Limiter.Stage.Apply | crates/art/src/limiter.rs:82-115 | The limiter's new state, the frame and the report, as functions of the old ones |
| Pipeline.PoppedIsRecent | crates/art/src/pipeline.rs:191-194 | Taking old entries off the front of a queue in order takes off all the old ones |
| Pipeline.WindowIsTheLastTwoSeconds | crates/art/src/pipeline.rs:186-194 | With time going forwards the queue is exactly the changes at most two seconds old, in order |
| Pipeline.ReportedPeakIsTheLargest | crates/art/src/pipeline.rs:195 | The reported peak is the largest change in the queue |
| Pipeline.StatsAre | crates/art/src/pipeline.rs:186-217 | In every run: the duties before and after the limiter, which is which; the luminance let out, and how far it is from the one let out of the frame before; the gain; and a clock that adds up |
| Pipeline.FirstFrame | crates/art/src/pipeline.rs:190-195 | The first frame of all is no change, however bright, and the clock starts with it |
| Pipeline.Pipe.Fork | crates/art/src/pipeline.rs:119-136 | A separate pipeline with the same history |
| Pipeline.Pipe.Process | crates/art/src/pipeline.rs:144-217 | The palette shortened, and the limiter's state, the history and the statistics as a function of the old ones and the frame |
| Pipeline.FeedBoth | crates/art/src/pipeline.rs:119-136 | A fork that is given the same frames says the same for ever |
| Md5.AskedLenIsEnoughExactlyWhen | site/stock.js:183-184 | The buffer holds message and padding exactly up to 2^31-73 bytes, and is then as long as RFC 1321 pads to; for anything longer it cannot take the message |
| Md5.NoFewerZeros | site/stock.js:184-186 | Section 3.1 of RFC 1321: no fewer zeros would do |
| Md5.LengthAgrees | site/stock.js:188-189 | The two length words are those of section 3.2 |
| Md5.WordAgrees | site/stock.js:199-202 | The computed word index is the RFC's table |
| Md5.InitialIs | site/stock.js:190 | Section 3.3: the registers begin as the bytes 01 23 45 67, 89 ab cd ef, fe dc ba 98, 76 54 32 10, low-order first |
| Md5.WordRoundTrip | site/stock.js:193-209 | Section 2: a word is read back from its bytes, low-order first |
| Md5.LowByteFirst | site/stock.js:193 | The first byte is the word's lowest and the last its highest |
| Md5.DigitIs | site/stock.js:209 | The digits are 0 to 9 and a to f |
| Md5.RotlAgrees | site/stock.js:203-206 | The two shifts are a rotation, for every shift that is used |
| Md5.StepAgrees | site/stock.js:197-207 | One pass of the rotating-register loop is the RFC's step, the registers moved along |
| Md5.Mash | site/stock.js:193-208 | The inner loop is the RFC's four rounds of sixteen steps |
| Md5.Md5Hex | site/stock.js:182-214 | For every byte string up to 2^31-73 bytes the page computes RFC 1321's digest in hex; for a longer one it throws |

## Left out

- Sockets, radio, DNS, the HTTP server and its pages, and the browser's backup and restore. Of the request handler only the upload's read loop is modelled.
- The provisioning machine, the frame receiver, the codecs, the panel drivers and the button. Their behaviour is not needed by any property here.
- SHA-256 is a parameter of `ImageScan` and `Staging`; what is modelled is which bytes it is taken of.
- Rounding of 32-bit floats: `Frames`, `Limiter`, `Pipeline` and `BlueNoise` compute over the reals, and the exponential is any function with values between 0 and 1 for negative arguments.
- The boot loader's verification of an image is one bit of the image; its flash encryption and anti-rollback are not modelled.
- A flash write that damages its sector and lets the device go on running. A write lands, is refused with the entry unchanged, or is cut short by a reset that leaves the entry erased or torn.
- Sequence numbers that reach the pattern of an erased entry: a run ends there.
- Two panics on the two cores at once, and a core that notes an upload while the other one panics: the breadcrumb's updates follow one another, each cut anywhere.
- The reset reason's words, the file's base name, the characters kept of it, and the packing of bytes into words: the record's words are taken as they are given.
- The panic-test latch of the breadcrumb, which only a bench build has.
- SET_NAME's immediate write, credentials and the colour order: `Settings` covers the fields that go through the dirty bits.
- What a framebuffer holds besides the window, and the window's bits: a buffer is the range of slots it lights. The handlers of core 0 are not interrupted by one another, as tasks of one executor.
- The wire frame, the meter, the preview and the threshold table's lookup of `crates/art/src/pipeline.rs`, and supersampling.
- Reading the slot back cannot fail in `Staging`, and flash timing statistics, logs and the watchdog are left out.
- The page's search for the stock firmware's strings and everything else in `site/stock.js` but `md5hex`.
- Limiter.Stage.Apply: a negative power cap, which a configuration could hold, is excluded, as it is in every theorem of `Limiter`: for a black frame the program divides by zero there, which the reals do not have.
- BreadcrumbHonesty.MessageAndPlaceAreOnePanics: for fewer than 2^32 panics since the region was last not ours, which is where the count saturates; what happens then is stated beside it.
- ImageScan.AcceptedMeans: for bodies up to 2^32-17 bytes, beyond which the padding's 32-bit arithmetic saturates; a slot is two megabytes.
