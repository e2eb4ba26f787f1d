# Models of the OP-TEE boot stack

Dafny models of the parts of a Raspberry Pi OP-TEE stack that carry the most
state: firmware update and exception priorities in Trusted Firmware-A, the
loader of trusted applications and the signing tool in OP-TEE, slot metadata,
bootflow scan and command-line editing in U-Boot. `dafny verify dfyconfig.toml`
checks all of it.

Each component has specification functions on values, which follow the source
branch by branch, error returns and failed assertions included; classes or
methods in the source's imperative form, proved to compute exactly those
functions; and theorems about the functions over all inputs, runs or chains.

| component | files |
|---|---|
| firmware update in BL1 | `FwuSpec`, `FwuRuns`, `FwuContent`, `FwuHistory`, `FwuInterrupt`, `FwuWrites`, `FwuBytes`, `FwuInPlace`, `FwuReplies`, `FwuWitness`, `FwuStale`, `FwuHandlers` |
| exception priorities in BL31 | `Bits`, `Ehf`, `EhfSwitch` |
| A/B slot metadata | `AndroidAb`, `AndroidBoots` |
| bootdev order and bootflow scan | `Bootdev`, `BootflowScan`, `BootflowRuns`, `BootflowOrder`, `BootflowGlobals`, `BootflowParts`, `BootflowLabels`, `BootflowTiming`, `BootflowAnswers`, `BootflowIter` |
| kernel command line | `Cmdline`, `CmdlineLaws`, `CmdlineExact`, `CmdlineEdit` |
| symbol lookup, resolution, relocation | `Bytes`, `ElfSymbols`, `ElfHashes`, `ElfLookup`, `ElfResolve`, `ElfReloc`, `ElfRebase`, `ElfWords`, `ElfRelocator` |
| segments and dependencies | `ElfSegments`, `ElfSegmentLaws`, `ElfQueue`, `ElfLoader` |
| signed containers | `SignedTa`, `SignedTaRoundTrip`, `SignedTaChain`, `SignedTaAccept`, `SignedTaVerify`, `SignedTaSound`, `SignedTaExact`, `SignedTaBuild`, `SignedTaTool` |
| shared | `Wrappers` |

Platform hooks, disk failures, what a bootmeth answers and what the interrupt
controller reports are parameters that a run chooses freely. Cryptography is a
record of functions; the acceptance theorems ask of it only that what is signed
verifies, what is encrypted decrypts, and lengths are as announced. A CRC that
does not match stands for an interrupted disk write.

## Where the code differs from its documentation or from what one would expect

The models follow the code.

- Of the assertions in the firmware-update handlers three can fail: at 210 after
  an image of one byte or one that wraps round the end of the address space, at
  587 after resetting an interrupted image, at 744 when the image that BL1 itself
  started is to be reset. `AssertionsThatFire` gives the exact condition of each
  and excludes all others; `ResumeTrapsAfterReset` tells that of 587 by events.
- An image can be executed with other bytes than were verified, in two ways.
  `ExecutedImageIsTheVerifiedOne` gives the exact condition for every run, for
  images copied in and for images verified in place.
  - An image verified in place by the secure world keeps the copied size it had
    before, and its reset wipes that many bytes, which by then can be another
    image's (arm-trusted-firmware/bl1/bl1_fwu.c:441-442, 721-729):
    `StaleResetWipesLaterImage` and `StaleResetWipesEarlierImage` are two such
    runs, the second with a copied size that does not exceed the image size.
    `OtherImagesAreNotWritten` is the exact condition on a call; no call meets it
    when the secure world verifies in place only images of copied size 0.
  - Verifying in place reads the bytes where the call says, and does not compare
    that with the image's own place (lines 408-442): `VerifiedAwayFromItsPlace` is
    a run that is clean in the sense just given. The image holds what was verified
    whatever memory holds exactly if the two places are the same
    (`InPlaceIsItsPlace`).
  - Neither can happen when the secure world verifies in place only at the image's
    own place, apart from all images copied in, with copied size 0: see
    `ExecutedBytesAreVerified`.
- On a deactivation that leaves levels active, the priority mask is set to the
  level just deactivated, not to the next one as the comment says
  (arm-trusted-firmware/bl31/ehf.c:201-217). Entering that level again then
  panics: `ReactivationPanics` is the exact condition, `ReactivationRun` a run.
- A deactivation may name its level by another priority than the activation did,
  and then panic on the mask: `WhenDeactivationMaskPanics` is the exact condition
  over every run, `NonCanonicalCanMaskPanic` a run. It cannot happen with the
  priorities that handler registration accepts (`CanonicalNeverMaskPanics`).
- The slot metadata calls priority 0 unbootable; the code does not look at it:
  `WhenUnbootablePriorityIsSelected` says exactly when such a slot is selected,
  `UnbootablePriorityIsSelected` is a record for which it is.
- Setting a bare argument writes the edited line without a space at its end, so a
  name that is empty or ends in a space is not written as such:
  `SetIsEditExactly` is the exact condition, `TrailingSpaceIsLost` a case.
- Reading an argument reports a span that is not its value when the value ends in
  a quote and does not start with one: `WhenSpanIsValue` and `ReadsItsValue` are
  the exact condition, `PartlyQuoted` a case.
- Symbols are resolved module by module, global before weak within a module. The
  comment (optee_os/ldelf/ta_elf_rel.c:217-221) reads as if all global symbols
  came first: see `EarlierWeakWins` and `WeakFBeforeGlobalF`. It also reads as if
  a given module were searched instead of all; it is searched before all: see
  `GivenIsFirst` and `GivenWithoutF`. And it calls resolving an undefined weak
  symbol to zero the last option, but such an entry hides every later definition:
  see `WhenUndefinedIsFound` and `UndefinedFHides`.
- The assertions on merged segments only compare addresses and offsets modulo
  the alignment. File offsets survive a merge exactly if address minus offset
  agree: see `AdjustKeepsMeaning` and `OffsetCanChange`.
- A thread-local relocation that names a symbol which is not thread-local stores
  an address, so it moves with the load address like the others: see
  `ThreadLocalWordCanMove`.
- `sign_encrypt.py verify` compares a UUID object with a byte string when a
  subkey has no name field (line 907), which is never equal: such a chain is
  rejected although it was built correctly. `SignedInTurnIsAccepted` is the exact
  condition, `NamelessIsRejected` the shortest case, `NamelessInstance` a file.
- A name longer than its field is written uncut and then not parsed back: see
  `NameFitsField`.

## Model

| member | source | states |
|---|---|---|
| `FwuRuns.AddKeepsTable` | arm-trusted-firmware/bl1/bl1_fwu.c:120-139 | adding an image ID keeps the table free of duplicates, adds exactly that ID, and fails exactly when it is new and no slot is free |
| `FwuRuns.RemoveKeepsTable` | arm-trusted-firmware/bl1/bl1_fwu.c:145-158 | removing an ID removes exactly that one and fails exactly when it is not there |
| `FwuRuns.OverlapCheckMeaning` | arm-trusted-firmware/bl1/bl1_fwu.c:164-222 | what the overlap check answers: the first loaded image of one byte, or that wraps, trips the assertion at 210 if those before it are apart, else clear means apart from every loaded image |
| `FwuRuns.StepKeeps` | arm-trusted-firmware/bl1/bl1_fwu.c:227-749 | every SMC handler keeps the run invariant |
| `FwuRuns.RunKeeps` | arm-trusted-firmware/bl1/bl1_fwu.c:112-749 | in every state of every run: loaded IDs are distinct and are exactly the images not in RESET other than the boot image, at most one secure image is EXECUTED, it is the one sec_exec_image_id names and only while the secure world runs, COPYING means 0 < copied_size < image_size |
| `FwuRuns.AssertionsThatFire` | arm-trusted-firmware/bl1/bl1_fwu.c:185-746 | over every run, of all assertions in the handlers only 210, 587 and 744 can fail, each exactly under a condition on state and request: a loaded image of one byte or that wraps is met, an interrupted image was reset, the image started by BL1 is reset |
| `FwuWitness.OneByteImageTraps` | arm-trusted-firmware/bl1/bl1_fwu.c:210-210 | a concrete run that fails the assertion at 210 |
| `FwuWitness.ResetAfterInterruptTraps` | arm-trusted-firmware/bl1/bl1_fwu.c:587-587 | a concrete run that fails the assertion at 587 |
| `FwuWitness.ResetOfBootImageTraps` | arm-trusted-firmware/bl1/bl1_fwu.c:744-744 | a concrete run that fails the assertion at 744, with the image that BL1 started |
| `FwuInterrupt.ResumeTrapsAfterReset` | arm-trusted-firmware/bl1/bl1_fwu.c:556-735 | in every run, a resume fails the assertion at 587 exactly if an earlier event reset the interrupted image and no event since has started another secure image |
| `FwuContent.ClearMeansApart` | arm-trusted-firmware/bl1/bl1_fwu.c:164-222 | an image that passes the overlap check has no byte in common with any loaded secure image |
| `FwuContent.CopyShape` | arm-trusted-firmware/bl1/bl1_fwu.c:227-366 | a copy call changes nothing, or resets the size, or puts exactly its clipped block behind what was copied |
| `FwuContent.StepContent` | arm-trusted-firmware/bl1/bl1_fwu.c:227-749 | every handler keeps: images that were copied in have the size asked for, and no two of them share a byte |
| `FwuContent.RunContent` | arm-trusted-firmware/bl1/bl1_fwu.c:112-749 | so in every state of every run, in-place authentication included |
| `FwuContent.HitsAreStale` | arm-trusted-firmware/bl1/bl1_fwu.c:441-735 | a call on one image that changes the bytes of another is always the reset of an image authenticated in place with a copied size left over |
| `FwuContent.RunStale` | arm-trusted-firmware/bl1/bl1_fwu.c:408-502 | in a run that authenticates in place only images of copied size 0, no image authenticated in place ever has a copied size |
| `FwuBytes.ExecutedImageIsTheVerifiedOne` | arm-trusted-firmware/bl1/bl1_fwu.c:227-550 | in every run, an image handed to execution was verified by an event and has not left AUTHENTICATED since. If it was copied in, it holds the verified bytes exactly if no reset has hit it since, and the blocks of its copy events in order exactly if none has since its first copy, and every byte that differs is zero. If it was verified in place, the verified bytes are those where the call said, and it holds them exactly if they are what was last written to its own place, so in particular if the call named that place and nothing was overwritten since |
| `FwuHistory.AuthenticatedWasVerified` | arm-trusted-firmware/bl1/bl1_fwu.c:408-502 | an AUTHENTICATED image was verified by an event of the run and has not left that state since |
| `FwuReplies.WhenCallsSucceed` | arm-trusted-firmware/bl1/bl1_fwu.c:227-749 | in every run, each of the six calls succeeds exactly if conditions hold that are written out from the descriptors, the platform's attributes and the request, for resuming from the events of the run; nothing else succeeds |
| `FwuReplies.CopyReplies` | arm-trusted-firmware/bl1/bl1_fwu.c:227-366 | a copy succeeds exactly if the normal world asks for a known secure image in RESET or COPYING, the block is real, mapped and inside memory, and a new image fits its place, is apart from every loaded one, finds a slot and is let in; then just the clipped block is stored behind what was copied and the image is COPIED or COPYING |
| `FwuReplies.CopyRefusals` | arm-trusted-firmware/bl1/bl1_fwu.c:256-345 | a copy that may be made but does not succeed is refused for lack of memory, except for an image in the way or one that the platform does not let in |
| `FwuReplies.CopyRefusalLeaves` | arm-trusted-firmware/bl1/bl1_fwu.c:256-345 | a copy that may be made and is refused changes no byte, slot or state, only the sizes in the descriptor: to 0 if an image is in the way, else to what was asked for |
| `FwuReplies.AuthReplies` | arm-trusted-firmware/bl1/bl1_fwu.c:371-502 | authentication succeeds exactly if the image is verified and the platform does not object, and it is either a secure image COPIED, asked for by the normal world, or one in RESET of which the bytes named lie in memory and that finds a slot; what then changes |
| `FwuReplies.AuthRefusals` | arm-trusted-firmware/bl1/bl1_fwu.c:371-502 | the answer in every other case |
| `FwuReplies.AuthLeaves` | arm-trusted-firmware/bl1/bl1_fwu.c:371-502 | the descriptor that authentication leaves, whether it works or not; a failure in place changes nothing but the image size |
| `FwuReplies.ExecuteReplies` | arm-trusted-firmware/bl1/bl1_fwu.c:507-550 | execution is granted exactly to the normal world for an authenticated, executable secure image, which then runs in the secure world; all else is refused and changes nothing |
| `FwuReplies.ResumeComesBack` | arm-trusted-firmware/bl1/bl1_fwu.c:580-606 | the secure world's resume always works and marks the image interrupted, and the normal world's resume takes that back: the very same state |
| `FwuReplies.ResumeReplies` | arm-trusted-firmware/bl1/bl1_fwu.c:556-618 | in every run, the normal world's resume succeeds exactly if a secure image is named and was not reset while interrupted; that image then runs again in the secure world and nothing else changes |
| `FwuReplies.DoneReplies` | arm-trusted-firmware/bl1/bl1_fwu.c:623-675 | the end of a secure image is accepted exactly from the secure world, and leaves the image in RESET, its slot free and no image named |
| `FwuReplies.ResetReplies` | arm-trusted-firmware/bl1/bl1_fwu.c:696-749 | a reset succeeds exactly for the normal world and a known image other than the one BL1 started; what it wipes and leaves |
| `FwuBytes.ExecutedBytesWereCopiedAndVerified` | arm-trusted-firmware/bl1/bl1_fwu.c:227-550 | where only images of copied size 0 are authenticated in place: an image handed to execution that was copied in holds the bytes that were verified, and they are the blocks that the copy events of the run put into it, in order; one verified in place is as in the row above |
| `FwuContent.OtherImagesAreNotWritten` | arm-trusted-firmware/bl1/bl1_fwu.c:227-735 | in every run, a call on another image changes a byte of an image copied in exactly if it is a reset whose left-over copied bytes meet a byte of it that is not zero; no call does where only images of copied size 0 are authenticated in place |
| `FwuWrites.StepWrites` | arm-trusted-firmware/bl1/bl1_fwu.c:227-735 | every call writes just its block, or zeros over an image that fails authentication or is reset, inside memory, and nothing else |
| `FwuWrites.ChangedIfOverwritten` | arm-trusted-firmware/bl1/bl1_fwu.c:227-735 | a call changes a range of memory exactly if it writes into it a byte that was another before |
| `FwuWrites.LatestIsThere` | arm-trusted-firmware/bl1/bl1_fwu.c:227-735 | in every run, a byte of an image since it was verified is the one that the last call to write there wrote, or the one from before |
| `FwuBytes.ContentIsCopies` | arm-trusted-firmware/bl1/bl1_fwu.c:227-366 | in every state of every run, an image copied in and not yet executed holds its copied blocks in order exactly if nothing has hit it since copying began, and otherwise zeros in their place |
| `FwuBytes.ContentSinceVerified` | arm-trusted-firmware/bl1/bl1_fwu.c:371-502 | from the event that verified it on, an image keeps its bytes exactly if nothing hits it |
| `FwuStale.StaleResetWipesLaterImage` | arm-trusted-firmware/bl1/bl1_fwu.c:441-729 | a concrete run: the reset of an image authenticated in place wipes an image copied after that, which is then executed without the bytes that were verified |
| `FwuStale.StaleResetWipesEarlierImage` | arm-trusted-firmware/bl1/bl1_fwu.c:441-729 | the same with an image copied before, and a copied size equal to the image size |
| `FwuStale.VerifiedAwayFromItsPlace` | arm-trusted-firmware/bl1/bl1_fwu.c:408-442 | a concrete run, without any copied size left over, that executes an image without the bytes that were verified |
| `FwuInPlace.InPlaceIsItsPlace` | arm-trusted-firmware/bl1/bl1_fwu.c:408-442 | after authentication in place the image holds the bytes that were verified, whatever memory holds, exactly if the call named its own place |
| `FwuInPlace.ExecutedBytesAreVerified` | arm-trusted-firmware/bl1/bl1_fwu.c:227-550 | in every run that authenticates in place only at the image's own place, apart from images copied in and with copied size 0, every image handed to execution holds the bytes that were verified |
| `FwuHandlers.FirmwareUpdate.constructor` | arm-trusted-firmware/bl1/bl1_main.c:163-163 | the state in which the updater runs: the boot image executed, nothing loaded |
| `FwuHandlers.FirmwareUpdate.AddLoadedId` | arm-trusted-firmware/bl1/bl1_fwu.c:120-139 | the in-place table update is the specified one |
| `FwuHandlers.FirmwareUpdate.RemoveLoadedId` | arm-trusted-firmware/bl1/bl1_fwu.c:145-158 | the in-place table update is the specified one |
| `FwuHandlers.FirmwareUpdate.ImageCheckOverlaps` | arm-trusted-firmware/bl1/bl1_fwu.c:164-222 | the loop over the table answers as specified |
| `FwuHandlers.FirmwareUpdate.CopyBlockIn` | arm-trusted-firmware/bl1/bl1_fwu.c:323-366 | the tail of a copy: clipping, table entry, hook, memory and descriptor |
| `FwuHandlers.FirmwareUpdate.ImageCopyHandler` | arm-trusted-firmware/bl1/bl1_fwu.c:227-366 | result code and whole new state as specified, on every input |
| `FwuHandlers.FirmwareUpdate.ImageAuthHandler` | arm-trusted-firmware/bl1/bl1_fwu.c:371-502 | result code and whole new state as specified, on every input |
| `FwuHandlers.FirmwareUpdate.ImageExecuteHandler` | arm-trusted-firmware/bl1/bl1_fwu.c:507-550 | result code and whole new state as specified; EXECUTED is set where the next image is prepared |
| `FwuHandlers.FirmwareUpdate.ImageResumeHandler` | arm-trusted-firmware/bl1/bl1_fwu.c:556-618 | result code and whole new state as specified, on every input |
| `FwuHandlers.FirmwareUpdate.SecImageDoneHandler` | arm-trusted-firmware/bl1/bl1_fwu.c:623-675 | result code and whole new state as specified, on every input |
| `FwuHandlers.FirmwareUpdate.ImageResetHandler` | arm-trusted-firmware/bl1/bl1_fwu.c:696-749 | result code and whole new state as specified, on every input |
| `Bits.TopIsCtz` | arm-trusted-firmware/bl31/ehf.c:76-87 | the count of trailing zeros is the top of the bitmap read as a stack |
| `Bits.PopClearsTop` | arm-trusted-firmware/bl31/ehf.c:190-228 | x & (x - 1) removes exactly the top |
| `Bits.PushSetsTop` | arm-trusted-firmware/bl31/ehf.c:120-133 | setting a bit below all set ones pushes it |
| `Ehf.RunIsStack` | arm-trusted-firmware/bl31/ehf.c:99-369 | over every run of matched activations and deactivations, preemption allowed or not, the bitmap is a stack of strictly rising priority, the mask never exceeds the top, when the stack drains it is the first mask or, once preemption was allowed, the stashed one, and the mask panic cannot occur |
| `Ehf.CanonicalNeverMaskPanics` | arm-trusted-firmware/bl31/ehf.c:166-228 | with priorities that an index denotes, no run at all, preemption allowed or not, reaches the mask panic of a deactivation, and the bitmap is the stack |
| `Ehf.WhenDeactivationMaskPanics` | arm-trusted-firmware/bl31/ehf.c:166-228 | in every run from an idle CPU, a deactivation panics on the mask exactly if it passes the level checks and its priority is below the one that the operation before it named |
| `Ehf.NonCanonicalCanMaskPanic` | arm-trusted-firmware/bl31/ehf.c:54-63 | a concrete run with another spelling of a level that does reach it |
| `Ehf.ReactivationPanics` | arm-trusted-firmware/bl31/ehf.c:201-221 | after a deactivation that leaves levels active, of the priorities that may be activated over what is left exactly those not above the deactivated one panic at 143, and exactly the others are activated |
| `Ehf.ReactivationRun` | arm-trusted-firmware/bl31/ehf.c:135-217 | a concrete run: two levels nested, the upper one left and entered again, panics at 143 |
| `Ehf.SecureWindowRestoresMask` | arm-trusted-firmware/bl31/ehf.c:241-369 | leaving normal world, any run that drains its activations, optionally allowing preemption, and re-entering restores the mask and clears the stash without a panic |
| `EhfSwitch.LevelsAre` | arm-trusted-firmware/bl31/ehf.c:37-63 | a level is the implemented bits of a secure priority; a priority is one that an index denotes exactly if it is secure and its other bits are zero |
| `EhfSwitch.WhenActivationSucceeds` | arm-trusted-firmware/bl31/ehf.c:99-154 | after every run of matched operations, a priority is activated exactly if it has a descriptor, is above the running priority, above the mask in force and its level above the top of the reference stack |
| `EhfSwitch.WhenDeactivationSucceeds` | arm-trusted-firmware/bl31/ehf.c:166-228 | and deactivated exactly if it has a descriptor, is above the running priority, of the level on top, and not above the mask in force |
| `EhfSwitch.WhenPreemptionIsAllowed` | arm-trusted-firmware/bl31/ehf.c:336-369 | preemption is allowed exactly once, while a mask is stashed and the stack is empty |
| `EhfSwitch.WhenHooksDoNothing` | arm-trusted-firmware/bl31/ehf.c:241-323 | the two world-switch hooks do nothing exactly if the running priority is secure or a level is active, or on the way back if nothing is stashed |
| `EhfSwitch.NormalMaskIsNeverLost` | arm-trusted-firmware/bl31/ehf.c:99-369 | over every run of world switches, activations, deactivations and preemption in any order, the normal world's own mask is in force or stashed, it is in force whenever nothing is stashed or active, and neither hook can panic on a mask |
| `EhfSwitch.SwitchesAfterAnyRun` | arm-trusted-firmware/bl31/ehf.c:241-323 | after any such run, what each switch does: entering always works and, if quiet, puts the normal world's own mask in force; leaving stashes it behind priority 0x80, or fails an assertion exactly if a mask is stashed already |
| `Ehf.CpuExceptionData.ActivatePriority` | arm-trusted-firmware/bl31/ehf.c:99-154 | new state or panic as specified |
| `Ehf.CpuExceptionData.DeactivatePriority` | arm-trusted-firmware/bl31/ehf.c:166-228 | new state or panic as specified |
| `Ehf.CpuExceptionData.OnExitedNormalWorld` | arm-trusted-firmware/bl31/ehf.c:241-271 | new state or panic as specified |
| `Ehf.CpuExceptionData.OnEnteringNormalWorld` | arm-trusted-firmware/bl31/ehf.c:284-323 | new state or panic as specified |
| `Ehf.CpuExceptionData.AllowPreemption` | arm-trusted-firmware/bl31/ehf.c:336-369 | new state or panic as specified |
| `AndroidAb.BestSlotIsBest` | u-boot/boot/android_ab.c:176-192 | the slot chosen is bootable and best by priority, successful, tries, with ties to the lowest index; none is chosen exactly when none is bootable |
| `AndroidBoots.SelectedIsTheBest` | u-boot/boot/android_ab.c:176-341 | a record is refused exactly if its magic number is another or its version is above 1; otherwise a slot is returned exactly if, of the at most four that the record counts, it is bootable and beats every other bootable one, and none exactly if none is bootable |
| `AndroidBoots.SelectedLeavesItsMark` | u-boot/boot/android_ab.c:284-341 | what a selection changes: the suffix of the slot, and one try of a slot not yet marked successful |
| `AndroidBoots.InterruptedBootIsRemembered` | u-boot/boot/android_ab.c:343-369 | a boot interrupted after its primary copy was written is remembered, however the backup was left |
| `AndroidBoots.LostMetadataBoots` | u-boot/boot/android_ab.c:139-252 | from a disk without a good copy, the n-th boot selects slots a and b in turn for fourteen boots, seven tries each, and finds no slot after that |
| `AndroidBoots.LostMetadataIsRewritten` | u-boot/boot/android_ab.c:139-163 | the record that the first of these boots writes, field by field, to both copies |
| `AndroidAb.WhenUnbootablePriorityIsSelected` | u-boot/boot/android_ab.c:284-341 | a slot of priority 0 is selected exactly if the record is understood, some slot is bootable and every bootable slot has priority 0 |
| `AndroidAb.UnbootablePriorityIsSelected` | u-boot/include/android_bootloader_message.h:138-140 | a concrete record whose slot of priority 0 is selected |
| `AndroidAb.PowerFailureIsSurvived` | u-boot/boot/android_ab.c:343-369 | both copies good: power lost in any one write leaves the old or new record usable, and the next selection ends with two identical valid copies |
| `AndroidAb.WhenPowerFailureCanLoseBoth` | u-boot/boot/android_ab.c:224-369 | the exact condition under which one power loss can leave no valid copy |
| `AndroidAb.TwoFailuresCanLoseBoth` | u-boot/boot/android_ab.c:139-163 | two interrupted writes in a row can lose both copies: a concrete disk |
| `AndroidAb.HistoryNeverReinitialises` | u-boot/boot/android_ab.c:194-369 | over any history of complete and interrupted boots, never two interrupted running, no boot finds the metadata gone |
| `AndroidAb.TriesAreConserved` | u-boot/boot/android_ab.c:284-324 | over any number of decrementing boots, boots of unproven slots and tries left add up to the tries at first |
| `AndroidAb.SettledChoiceIsFinal` | u-boot/boot/android_ab.c:284-324 | a boot that picks a proven slot or none is repeated by every later boot |
| `AndroidAb.SettledResultIsFinal` | u-boot/boot/android_ab.c:194-377 | the same for what is returned, on any disk |
| `AndroidAb.PeekThenBoot` | u-boot/boot/bootmeth_android.c:282-282 | a selection that takes no try, and then one that does, pick the same slot |
| `AndroidAb.MiscPartition.FindSlot` | u-boot/boot/android_ab.c:284-314 | the loop finds the best slot |
| `AndroidAb.MiscPartition.LoadRecord` | u-boot/boot/android_ab.c:224-252 | which record is used and what is to be stored |
| `AndroidAb.MiscPartition.ChooseSlot` | u-boot/boot/android_ab.c:284-341 | the record after the choice: a try taken, the suffix set |
| `AndroidAb.MiscPartition.SelectSlot` | u-boot/boot/android_ab.c:194-377 | returned slot and both copies on disk as specified, write failures included |
| `Bootdev.CallsFollowEnumeration` | u-boot/boot/bootdev-uclass.c:624-686 | the n-th call returns the n-th bootdev of the enumeration, and the call after the last finds no more |
| `Bootdev.EnumerationIsStableOrder` | u-boot/boot/bootdev-uclass.c:624-686 | the enumeration holds exactly the bootdevs that probe, each once, in stable order of priority |
| `Bootdev.WhatIsEnumerated` | u-boot/boot/bootdev-uclass.c:624-686 | of the bootdevs of priority 0 to 7 exactly those that probe are enumerated |
| `BootflowIterator.BootflowIter.BootdevNextPrio` | u-boot/boot/bootdev-uclass.c:624-686 | the nested scan returns what one call is specified to, and ends |
| `BootflowRuns.RoundMovesDown` | u-boot/boot/bootflow.c:290-490 | every turn of the scan keeps the iterator invariant and moves strictly down the measure: unused globals, bootdevs, global phase, partitions, bootmeths |
| `BootflowRuns.BeginIsGood` | u-boot/boot/bootflow.c:540-590 | every start of a scan, on a global bootmeth or on the first bootdev in each kind of scan, satisfies the invariant |
| `BootflowRuns.ScanEnds` | u-boot/boot/bootflow.c:592-623 | from any good iterator, however the bootmeths answer, finitely many turns lead to the end of the bootdevs |
| `BootflowRuns.EveryScanEnds` | u-boot/boot/bootflow.c:540-623 | from every scan start, all turns the scan can take are the beginning of one sequence of turns that stops |
| `BootflowRuns.GlobalsTriedOnce` | u-boot/boot/bootflow.c:197-250 | over any number of turns each global bootmeth is tried at most once, and never one already used |
| `BootflowRuns.ScanTriesGlobalsOnce` | u-boot/boot/bootflow.c:540-623 | over a whole scan, its first bootmeth included, no global bootmeth is tried twice |
| `BootflowGlobals.RoundSweeps` | u-boot/boot/bootflow.c:197-250 | a turn takes the global bootmeths of a phase in order, and ends the scan only when all that can be reached are used, a bootmeth said so or one partition was named |
| `BootflowGlobals.ScanTriesEachGlobalOnce` | u-boot/boot/bootflow.c:540-623 | over a whole scan that is not cut short, every global bootmeth whose priority is ever reached is tried, each exactly once |
| `BootflowOrder.RoundTakes` | u-boot/boot/bootflow.c:290-490 | in a scan by priority, a turn moves to the first bootdev still to come or to none, also across global bootmeths, and stops only when none is left, a bootmeth said so or one partition was named |
| `BootflowOrder.ScanVisitsEnumeration` | u-boot/boot/bootflow.c:540-623 | the bootdevs that a whole scan by priority visits are a beginning of the enumeration of bootdevs, each once and in its order, and all of it unless the scan was cut short so |
| `BootflowLabels.ScanVisitsMeant` | u-boot/boot/bootflow.c:398-465 | the bootdevs that a whole scan by labels, of one uclass or media device, or of one bootdev comes to are a beginning of those that are meant, in the order of labels and of the uclass, up to the first that fails to probe; and all of these unless a bootmeth says that there are no more |
| `BootflowParts.BootdevTurnByTurn` | u-boot/boot/bootflow.c:300-394 | at every turn of every scan: a bootdev is come to with the first bootmeth on partition 0; then comes the next bootmeth, or after the last the first one on the next partition; a bootdev is left exactly after the last bootmeth on the last partition known, or earlier with an error saying that there are no more partitions or bootdevs |
| `BootflowParts.TriedInOrder` | u-boot/boot/bootflow.c:345-394 | turn k of a visit that is not cut short tries bootmeth k mod n on partition k / n, n being the number of bootmeths that are not global |
| `BootflowParts.EverythingIsTried` | u-boot/boot/bootflow.c:540-623 | in a scan by priority that is not cut short, each bootmeth that is not global is tried on each partition of each bootdev enumerated |
| `BootflowLabels.EverythingMeantIsTried` | u-boot/boot/bootflow.c:540-623 | the same for the other kinds of scan |
| `BootflowAnswers.AnswersAreKept` | u-boot/boot/bootflow.c:592-623 | at every turn of a scan the error it goes by is the last one that a bootmeth answered, and the partitions known at a bootdev are those last answered |
| `BootflowAnswers.NothingIsSkipped` | u-boot/boot/bootflow.c:540-623 | in a whole scan of any kind in which no bootmeth answers that there are no more partitions or bootdevs, every bootmeth that is not global is tried on every partition known of every bootdev to be tried |
| `BootflowTiming.GlobalsComeFirst` | u-boot/boot/bootflow.c:191-283 | at every turn of a scan by priority: a global bootmeth tried while a bootdev waits has a priority that the bootdev has reached, and when a bootdev is tried all global bootmeths of such a priority have been |
| `BootflowIterator.BootflowIter.constructor` | u-boot/boot/bootflow.c:93-101 | all zero, and on the first global bootmeth if there is one |
| `BootflowIterator.BootflowIter.ScanFirst` | u-boot/boot/bootflow.c:540-590 | the start of a scan as specified: first bootdev unless global bootmeths come first, and the first bootmeth tried; or no bootdev to start with |
| `BootflowIterator.BootflowIter.BootdevNextLabel` | u-boot/boot/bootdev-uclass.c:583-622 | the label loop moves as specified |
| `BootflowIterator.BootflowIter.ScanNextInGroup` | u-boot/boot/bootflow.c:178-188 | the next bootdev of the same uclass |
| `BootflowIterator.BootflowIter.NextGlobBootmeth` | u-boot/boot/bootflow.c:197-250 | starts on the first unused global bootmeth of allowed priority, or leaves the iterator alone |
| `BootflowIterator.BootflowIter.SelectDevice` | u-boot/boot/bootflow.c:398-465 | the bootdev to move to, in each of the four kinds of scan |
| `BootflowIterator.BootflowIter.NextBootdev` | u-boot/boot/bootflow.c:396-490 | moving to a bootdev, or holding it back for global bootmeths |
| `BootflowIterator.BootflowIter.NextPartition` | u-boot/boot/bootflow.c:379-394 | the next partition of the bootdev, up to the number discovered |
| `BootflowIterator.BootflowIter.IterIncr` | u-boot/boot/bootflow.c:290-490 | return code and whole new iterator as specified |
| `BootflowIterator.BootflowIter.Turn` | u-boot/boot/bootflow.c:592-623 | one turn of the scan loop as specified |
| `BootflowIterator.BootflowIter.ScanNext` | u-boot/boot/bootflow.c:592-623 | the loop ends, at a bootflow or at the end of the bootdevs, and is there by exactly the turns of its trace |
| `CmdlineLaws.LexJoin` | u-boot/boot/bootflow.c:898-1044 | splitting the space-joined tokens gives the tokens back |
| `CmdlineExact.SetExact` | u-boot/boot/bootflow.c:898-1044 | the result for every input: which error, or the joined edited tokens without a space at the end |
| `CmdlineExact.SetIsEdit` | u-boot/boot/bootflow.c:898-1044 | for balanced quotes and every name, the empty one included, the result is the space-joined tokens with every occurrence of the target replaced or deleted, or appended if absent, if that fits; a bare name that is empty or ends in a space is excepted |
| `CmdlineExact.SetIsEditExactly` | u-boot/boot/bootflow.c:898-1044 | for every name and value: what is written is the space-joined edited list exactly if the name joins, a condition on the tokens, the name and the value |
| `CmdlineLaws.SetLexes` | u-boot/boot/bootflow.c:898-1044 | the tokens of the result are the edited tokens |
| `CmdlineExact.SetRefuses` | u-boot/boot/bootflow.c:898-1044 | on every input, exactly when a set is refused and with which error |
| `CmdlineExact.TrailingSpaceIsLost` | u-boot/boot/bootflow.c:1035-1044 | a concrete case: a bare name that ends in a space loses it |
| `CmdlineLaws.GetIsFirst` | u-boot/boot/bootflow.c:1076-1083 | get answers from the first token with that name, with the span that the code computes for it |
| `CmdlineLaws.WhenSpanIsValue` | u-boot/boot/bootflow.c:973-987 | that span is the value without its enclosing quotes exactly if a value that ends in a quote also starts with one |
| `CmdlineLaws.ReadsItsValue` | u-boot/boot/bootflow.c:1076-1083 | so get reads the value of the first token exactly then |
| `CmdlineLaws.PartlyQuoted` | u-boot/boot/bootflow.c:973-987 | a concrete line with a value quoted in part, for which the span is another |
| `CmdlineExact.GetAfterSet` | u-boot/boot/bootflow.c:975-1033 | after a successful set of v, get returns the length of v at a position holding exactly v, quotes excluded; after a deletion it finds nothing |
| `CmdlineExact.OthersAfterSet` | u-boot/boot/bootflow.c:898-1044 | and what get answers for every other argument is unchanged |
| `CmdlineEdit.CopyIn` | u-boot/boot/bootflow.c:866-896 | writes name, equals sign and quoted value into the buffer, or refuses for lack of room |
| `CmdlineEdit.FindArgEnd` | u-boot/boot/bootflow.c:920-975 | the quote-aware scan finds the ends of name and token |
| `CmdlineEdit.OneArg` | u-boot/boot/bootflow.c:917-1010 | one turn of the outer loop: a token is copied, replaced or dropped |
| `CmdlineEdit.CmdlineSetArg` | u-boot/boot/bootflow.c:898-1044 | the in-place rewriter leaves exactly the specified line in the buffer and returns its length + 1, or the specified error |
| `CmdlineEdit.CmdlineGetArg` | u-boot/boot/bootflow.c:1076-1083 | position and length as specified |
| `Bits.TwoBitMask` | optee_os/ldelf/ta_elf_rel.c:150-168 | the bloom test passes exactly when both bits of the hash are set |
| `ElfLookup.GnuLookupIsScan` | optee_os/ldelf/ta_elf_rel.c:140-190 | for every well-formed DT_GNU_HASH index, bloom, bucket and chain answer what a scan of the hashed entries answers: same lowest entry, same value, same errors |
| `ElfLookup.DtLookupIsRight` | optee_os/ldelf/ta_elf_rel.c:190-211 | a well-formed DT_HASH lookup ends, and succeeds exactly when some entry but the null one accepts the name |
| `ElfLookup.FindIsRight` | optee_os/ldelf/ta_elf_rel.c:134-215 | either index: a hit is an accepting entry, a miss means there is none |
| `ElfResolve.ResolveIsFirstOffer` | optee_os/ldelf/ta_elf_rel.c:225-251 | resolution finds the first module in queue order that offers the name at all, and in it a weak entry only if it has no global one; it fails exactly when no module offers it |
| `ElfResolve.EarlierWeakWins` | optee_os/ldelf/ta_elf_rel.c:217-243 | whatever later modules define, the symbol found is a global one exactly if the first module that offers the name has a global definition of it |
| `ElfResolve.WeakFBeforeGlobalF` | optee_os/ldelf/ta_elf_rel.c:217-243 | two concrete modules: a weak definition wins over a global one in the later module |
| `ElfResolve.WhenUndefinedIsFound` | optee_os/ldelf/ta_elf_rel.c:217-243 | what is found is an undefined weak entry, of value zero, exactly if the first module that offers the name has no global definition and its lookup comes to one |
| `ElfResolve.UndefinedFHides` | optee_os/ldelf/ta_elf_rel.c:217-243 | a module with an undefined weak reference in front of any others: every definition is hidden |
| `ElfResolve.GivenIsFirst` | optee_os/ldelf/ta_elf_rel.c:217-243 | a given module is searched first: the symbol found is one of its own exactly if it offers the name, and otherwise what a search of all modules finds |
| `ElfResolve.GivenWithoutF` | optee_os/ldelf/ta_elf_rel.c:217-243 | two concrete modules: a name asked for in the one is answered from the other |
| `ElfHashes.GnuHashIs` | optee_os/ldelf/ta_elf_rel.c:35-44 | the GNU hash of a name is 5381 followed by its bytes as digits in base 33, modulo 2^32 |
| `ElfHashes.GnuHashOfPrintf` | optee_os/ldelf/ta_elf_rel.c:35-44 | its value for printf |
| `ElfHashes.ElfHashStepIs` | optee_os/ldelf/ta_elf_rel.c:24-31 | a byte of the System V hash: shifted by four bits and cut to 28, with the four bits cut off folded into bits 4 to 7 |
| `ElfHashes.ShortElfHash` | optee_os/ldelf/ta_elf_rel.c:19-33 | the System V hash of a short name is its bytes as digits in base 16 |
| `ElfHashes.ElfHashOfMemmove` | optee_os/ldelf/ta_elf_rel.c:19-33 | its value for memmove, which loses bits |
| `ElfWords.NameIsCString` | optee_os/ldelf/ta_elf_rel.c:46-60 | a name in a string table runs up to the first zero byte |
| `ElfWords.MatchIsDefinition` | optee_os/ldelf/ta_elf_rel.c:46-90 | a symbol table entry is a match exactly if it defines the name, and stands for its value plus the load address, a thread-local offset or, undefined and weak, zero; it is fatal exactly if it is malformed |
| `ElfWords.ResolveIsMeaning` | optee_os/ldelf/ta_elf_rel.c:217-251 | resolution finds an entry that defines the name in the first module that has one, weak only if that module has no global one, and what it stands for; it finds none exactly if no module has one |
| `ElfResolve.GnuHashLoop` | optee_os/ldelf/ta_elf_rel.c:35-44 | the loop computes the GNU hash in 32 bits |
| `ElfResolve.ElfHashLoop` | optee_os/ldelf/ta_elf_rel.c:19-33 | the loop computes the System V hash |
| `ElfResolve.GnuChain` | optee_os/ldelf/ta_elf_rel.c:175-189 | the walk along a chain answers as specified and ends |
| `ElfResolve.GnuFind` | optee_os/ldelf/ta_elf_rel.c:140-189 | bloom filter, bucket, chain |
| `ElfResolve.DtFind` | optee_os/ldelf/ta_elf_rel.c:190-211 | bucket and chain of DT_HASH |
| `ElfResolve.ResolveSymHelper` | optee_os/ldelf/ta_elf_rel.c:134-215 | lookup in one module |
| `ElfResolve.ResolveSym` | optee_os/ldelf/ta_elf_rel.c:225-251 | the given module and then the loop over all modules resolve as specified |
| `ElfRebase.FindMoves` | optee_os/ldelf/ta_elf_rel.c:46-90 | moving a module moves the value of a found symbol by the same amount if it is an address, and changes nothing else of the answer |
| `ElfRebase.ResolveMoves` | optee_os/ldelf/ta_elf_rel.c:225-251 | the same for resolution over all modules |
| `ElfRebase.WordsMove` | optee_os/ldelf/ta_elf_rel.c:512-734 | for every relocation type, the stored words move exactly as the symbol says |
| `ElfRebase.ApplyStores` | optee_os/ldelf/ta_elf_rel.c:644-734 | relocations with disjoint targets all leave their words, inside the module, and touch no other byte |
| `ElfRebase.Rebase` | optee_os/ldelf/ta_elf_rel.c:579-761 | loading each module further by an amount of its own: relocation fails alike, every store is inside the module, each address-valued word changes modulo 2^64 by exactly the amount of the module that defines it, and every other word and byte is the same |
| `ElfRebase.RebaseTogether` | optee_os/ldelf/ta_elf_rel.c:579-761 | with one amount d for all modules, every address-valued word changes by d |
| `ElfRebase.ThreadLocalWordCanMove` | optee_os/ldelf/ta_elf_rel.c:527-545 | a concrete thread-local relocation that names a function stores its address, which moves with the module |
| `ElfWords.WhenRelocationFails` | optee_os/ldelf/ta_elf_rel.c:644-734 | a relocation fails exactly outside the module, with an unknown type, or for a symbol that is missing, or undefined everywhere and not weak |
| `ElfWords.WhenLayoutIsOk` | optee_os/ldelf/ta_elf_rel.c:579-640 | the section headers of a relocation section are accepted exactly if entry sizes, indices and ends are right |
| `ElfWords.TablesLieInside` | optee_os/ldelf/ta_elf_rel.c:579-640 | then every relocation, symbol and name byte that is read lies inside the module |
| `ElfWords.StoredWordsAre` | optee_os/ldelf/ta_elf_rel.c:512-734 | the word that relocation leaves at each target: load address plus addend for RELATIVE, plus the symbol value for a defined ABS64; what the name stands for in the first module that has it, or zero for an undefined weak one, for GLOB_DAT, JUMP_SLOT and undefined ABS64; value, TLS offset and addend for TPREL and behind the resolver of TLSDESC; all modulo 2^64 |
| `ElfRelocator.WellFormedIsSane` | optee_os/ldelf/ta_elf_rel.c:134-215 | modules with well-formed indexes can be searched for any name, whatever their entries hold |
| `ElfRelocator.DynRela` | optee_os/ldelf/ta_elf_rel.c:487-524 | value of a symbol reference, zero for an undefined weak one |
| `ElfRelocator.TlsTprelRela` | optee_os/ldelf/ta_elf_rel.c:527-545 | offset from the thread pointer |
| `ElfRelocator.ProcessRela` | optee_os/ldelf/ta_elf_rel.c:644-734 | range check, value and store of one relocation of any type |
| `ElfRelocator.CheckLayout` | optee_os/ldelf/ta_elf_rel.c:591-643 | the checks on the section headers, in the order of the source |
| `ElfRelocator.E64Relocate` | optee_os/ldelf/ta_elf_rel.c:579-734 | header checks, and then the loop over the section applies its relocations in order |
| `ElfRelocator.TaElfRelocate` | optee_os/ldelf/ta_elf_rel.c:743-761 | the loop over the sections succeeds exactly if all headers pass and all relocations apply, and then has applied them in order |
| `ElfSegments.FirstInsaneMeaning` | optee_os/ldelf/ta_elf.c:636-655 | the sanity loop passes exactly when every segment passes, and otherwise fails the assertion of the first that does not |
| `ElfSegmentLaws.SaneMeans` | optee_os/ldelf/ta_elf.c:636-655 | the sanity check passes exactly if every segment is in order by itself, all have the same alignment, each follows the one before it in the file, and in memory no two overlap or are out of order |
| `ElfSegmentLaws.AdjustIsRuns` | optee_os/ldelf/ta_elf.c:657-721 | the result is the runs of page-sharing segments, each as one; which assertion fails, and when, is told from the original segments alone |
| `ElfSegmentLaws.AdjustKeepsMeaning` | optee_os/ldelf/ta_elf.c:628-722 | the segments come out in order and page-disjoint; each original byte is in exactly one, with at least its permissions, file-backed exactly if it was, at its original file offset exactly if address minus offset is that of the first segment it was merged with |
| `ElfSegmentLaws.FirstKeepsOffset` | optee_os/ldelf/ta_elf.c:711-718 | a segment that starts a run always keeps its file offsets |
| `ElfSegmentLaws.OffsetCanChange` | optee_os/ldelf/ta_elf.c:681-694 | two segments that pass every assertion and after which bytes come from another place of the file |
| `ElfSegments.LoadedElf.SanityCheck` | optee_os/ldelf/ta_elf.c:636-655 | the first assertion that fails, or none |
| `ElfSegments.LoadedElf.AdjustAt` | optee_os/ldelf/ta_elf.c:660-718 | one turn of the merge loop |
| `ElfSegments.LoadedElf.AdjustSegments` | optee_os/ldelf/ta_elf.c:628-722 | the list is edited in place to the specified one, or the specified assertion fails |
| `ElfQueue.EnqueueAllMeaning` | optee_os/ldelf/ta_elf.c:1040-1088 | all names of a module are queued once, in order, behind what is there; a malformed entry is an error |
| `ElfQueue.LoadIsClosure` | optee_os/ldelf/main.c:173-179 | the growing loop ends; it loads every module that the roots reach and nothing else, each once, and gives up exactly when one of those cannot be loaded |
| `ElfQueue.MainIsClosure` | optee_os/ldelf/main.c:169-179 | the queue starts with the application, has no duplicate, and is exactly what is reachable by DT_NEEDED |
| `ElfQueue.LibraryRestoresClosure` | optee_os/ldelf/ta_elf.c:1644-1660 | adding a library keeps the old queue in front and closes it again |
| `ElfLoader.Loader.FindElf` | optee_os/ldelf/ta_elf.c:90-99 | found exactly if queued |
| `ElfLoader.Loader.QueueElf` | optee_os/ldelf/ta_elf.c:75-87 | queued once |
| `ElfLoader.Loader.AddDepsFromSegment` | optee_os/ldelf/ta_elf.c:1040-1088 | the names of one dynamic segment are queued as specified |
| `ElfLoader.Loader.AddDependencies` | optee_os/ldelf/ta_elf.c:1090-1107 | the names of all dynamic segments are queued as specified |
| `ElfLoader.Loader.LoadModule` | optee_os/ldelf/ta_elf.c:1350-1371 | width check, load, names queued |
| `ElfLoader.Loader.LoadRest` | optee_os/ldelf/main.c:178-179 | the loop over the growing queue yields the specified queue, loads it in that order, and ends |
| `ElfLoader.Loader.LoadApplication` | optee_os/ldelf/main.c:169-179 | the application and all it needs |
| `ElfLoader.Loader.OpenLibrary` | optee_os/ldelf/ta_elf.c:1644-1660 | a library and all it needs, on top of a loaded application |
| `SignedTaRoundTrip.HeaderRoundTrip` | optee_os/scripts/sign_encrypt.py:365-372 | parsing a packed header gives it back |
| `SignedTaRoundTrip.AppRoundTrip` | optee_os/scripts/sign_encrypt.py:390-421 | parsing the written container of an application, in the clear or encrypted, recovers every field |
| `SignedTaRoundTrip.IntRoundTrip` | optee_os/scripts/sign_encrypt.py:455-459 | an integer comes back from its bytes |
| `SignedTaRoundTrip.SubkeyRoundTrip` | optee_os/scripts/sign_encrypt.py:423-471 | parsing a written subkey recovers every field, modulus and exponent through the attribute table, the name behind it and what follows |
| `SignedTaAccept.PromisesAreConsistent` | optee_os/scripts/sign_encrypt.py:724-784 | what is asked of signing, verification, encryption and text encoding can hold together |
| `SignedTaAccept.NameFitsField` | optee_os/scripts/sign_encrypt.py:806-808 | what follows a subkey is found exactly if the name is not longer than its field |
| `SignedTaAccept.ChainParses` | optee_os/scripts/sign_encrypt.py:547-553 | parsing on and on recovers every subkey of a chain of any length, with its name, and then the rest |
| `SignedTaChain.AcceptedIsShort` | optee_os/scripts/sign_encrypt.py:896-901 | an accepted file has strictly falling depths and at most one subkey more than the depth of its first |
| `SignedTaVerify.ImpossibleRejects` | optee_os/scripts/sign_encrypt.py:890-915 | a byte string in place of a UUID object rejects whatever follows |
| `SignedTaVerify.AppChainAccepted` | optee_os/scripts/sign_encrypt.py:878-925 | a chain of any length with matching keys and falling depths that ends in an application is accepted exactly if the application is the one asked for, every subkey has a name field, and every identity is derived from the subkey in front |
| `SignedTaVerify.SubkeyChainAccepted` | optee_os/scripts/sign_encrypt.py:878-908 | one that ends in a subkey exactly if this is so of every subkey but the last |
| `SignedTaSound.AcceptedExactlyIfAllRight` | optee_os/scripts/sign_encrypt.py:878-925 | on every input, verify accepts exactly if parsing reaches the end, the signature over the digest in every image verifies under the key in front of it, that digest is the digest of its header and content, identities behind subkeys are derived from names, depths fall, and an application is the one asked for and decrypts |
| `SignedTaSound.TamperingIsNoticed` | optee_os/scripts/sign_encrypt.py:786-925 | of two accepted files whose images have the same header, digest and signature, the images hold the same content, or the digest has a collision |
| `SignedTaExact.HeaderIsAccepted` | optee_os/scripts/sign_encrypt.py:473-498 | a header is accepted exactly if it has 20 bytes, its magic number, one of two algorithms and a digest of 32 bytes, byte by byte; and the fields it yields |
| `SignedTaExact.ParsedIsWhole` | optee_os/scripts/sign_encrypt.py:473-572 | a parsed file is its header, digest, signature and body parts one behind the other, and the header says which kind of body: parsing drops and adds no byte |
| `SignedTaExact.AppFieldsAre` | optee_os/scripts/sign_encrypt.py:500-533 | the length of an application and the fields of an encryption header |
| `SignedTaExact.SubkeyFieldsAre` | optee_os/scripts/sign_encrypt.py:534-572 | the numbers of a subkey as they stand in its image |
| `SignedTaExact.SubkeyKeyIs` | optee_os/scripts/sign_encrypt.py:545-568 | the key of a subkey is the pair of big-endian numbers that its attribute table first has under 0xD0000130 and 0xD0000230 |
| `SignedTaExact.WhenAppIsSigned` | optee_os/scripts/sign_encrypt.py:365-421 | an application is signed exactly if its numbers fit their fields and the key type is 0 or 1 |
| `SignedTaExact.ClearFileCannotBeChanged` | optee_os/scripts/sign_encrypt.py:786-925 | an accepted application in the clear is the only accepted file with its header, digest and signature, unless the digest has a collision |
| `SignedTaBuild.DepthRule` | optee_os/scripts/sign_encrypt.py:436-451 | a new subkey under a parent of depth p is signed exactly if there is a depth from 0 to p - 1 for it and its numbers fit, and it gets the depth asked for |
| `SignedTaBuild.LastIsLast` | optee_os/scripts/sign_encrypt.py:794-803 | walking a chain comes to its last subkey |
| `SignedTaBuild.FirstIsSigned` | optee_os/scripts/sign_encrypt.py:851-859 | the first subkey starts a good chain, with the depth asked for or 0 |
| `SignedTaBuild.SignSubkeyGrows` | optee_os/scripts/sign_encrypt.py:851-859 | signing a subkey on top of a good chain makes a good chain, one longer |
| `SignedTaBuild.SignAppGrows` | optee_os/scripts/sign_encrypt.py:842-848 | signing an application on top of a good chain puts it behind the chain |
| `SignedTaBuild.SignedAppIsAccepted` | optee_os/scripts/sign_encrypt.py:842-848 | what was signed so is accepted exactly if the application is the one asked for and names and identities are right |
| `SignedTaBuild.SignAllIsGood` | optee_os/scripts/sign_encrypt.py:842-859 | every file that signing subkeys in turn makes, as long as keys match and names fit, is that of a good chain of just the subkeys asked for |
| `SignedTaBuild.SignedInTurnIsAccepted` | optee_os/scripts/sign_encrypt.py:842-925 | every file made by signing any number of subkeys in turn and then an application is accepted under the root key exactly if the application is the one asked for, every subkey asked for has a name field, and every identity is the derived one |
| `SignedTaBuild.SubkeysInTurnAreAccepted` | optee_os/scripts/sign_encrypt.py:851-908 | and one of subkeys alone exactly if this is so of all but the last |
| `SignedTaBuild.SignedInTurnIsShort` | optee_os/scripts/sign_encrypt.py:436-451 | under a root of depth d at most d more subkeys can be signed in turn |
| `SignedTaBuild.NamelessIsRejected` | optee_os/scripts/sign_encrypt.py:903-908 | the shortest rightly built file that is rejected |
| `SignedTaBuild.NamelessInstance` | optee_os/scripts/sign_encrypt.py:903-908 | there is such a file: concrete requests and an application for which it is made and rejected |
| `SignedTaTool.BinaryImage.LookUpAttr` | optee_os/scripts/sign_encrypt.py:555-565 | the loop over the attribute table |
| `SignedTaTool.BinaryImage.ReadTa` | optee_os/scripts/sign_encrypt.py:499-533 | fields of an application |
| `SignedTaTool.BinaryImage.ReadSubkey` | optee_os/scripts/sign_encrypt.py:534-570 | fields of a subkey |
| `SignedTaTool.BinaryImage.ParseImage` | optee_os/scripts/sign_encrypt.py:473-572 | the fields filled in are the parsed ones, on every input |
| `SignedTaTool.FindLastSubkey` | optee_os/scripts/sign_encrypt.py:794-808 | the loop to the last subkey of a file ends and finds it |
| `SignedTaTool.CommandVerify` | optee_os/scripts/sign_encrypt.py:878-925 | the verify loop ends on every input and accepts exactly as specified |

## Left out

- Firmware update: `auth_img_flags`, cache maintenance, context save and restore, SMC dispatch and the platform's recovery-image commands.
- Exception priorities: the GIC-600 erratum branch, handler registration and the interrupt dispatch that calls the hooks.
- Slot metadata: disk addressing, `ab_dump_abc`, CRC-32 itself and logging.
- Bootflow scan: hunting for bootdevs, `BOOTFLOWIF_ALL` reporting, dropping a bootmeth in mid-scan, what bootmeths do with a bootdev.
- `BootflowIterator.BootflowIter.SelectDevice`: a scan of one media device is a scan of a group in the order of the bootdev uclass; the source goes by the order of the media device's children, which can be another.
- `BootflowIterator.BootflowIter.ScanFirst`: looking up the bootdev and partition that a label names is an answer in the model, and so is the order of the bootmeths.
- Bootdev order: a further call after the end of the list was reported, which the iterator does not make.
- Command line: `bootflow_cmdline_set_arg` and `_get_arg`, which allocate around the modelled functions, and the `auto` values.
- `ElfRelocator.E64Relocate`: the section headers are checked as in the source, but what is read where they point is given as values, and relocation targets are taken not to overlap it.
- Relocation: 32-bit Arm and RISC-V relocations, and the second loop of `ldelf`, which relocates each module of the queue in turn.
- Segments: populating and mapping them, which depends on system calls, and the load addresses that it chooses.
- Dependencies: turning a name into a UUID, which is an answer in the model, and what else loading a module does (mapping, saving symbols, TLS offsets).
- `ElfLoader.Loader.LoadApplication`: the loop over the queue starts behind the application; in the source it visits the application too and returns at once.
- `ElfRelocator.TaElfRelocate`: requires symbol lookups to stay inside their tables and end, which `WellFormedIsSane` proves of well-formed indexes.
- Signing tool: `display`, `digest`, `stitch`, `subkey-uuid`, key files and key formats, argument parsing; `BinaryImage` keeps what parsing finds behind the signature in one field.
