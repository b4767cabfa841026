# Citadel system test harness: a verified model

The harness drives a Citadel security chip from a host. This project models the parts of
it that compute or decide something, and the behaviour of the chip as far as the tests
fix it, and proves what they promise over every input and every run.

- **Vector compiler and its consumer** (`Text`, `Hex`, `NistParser`, `NistTheorems`,
  `NistConcat`, `NistErrors`, `CavpVectors`, `NistRows`, `CavpTests`, `GcmTest`). The readers that
  share a list of lines are methods on that list, each proved against a function of the
  lines left. Writing sections to a file and loading it gives them back; files placed one
  after another give their sections in turn; the nested readers read any lines as a single
  pass does; a file loads exactly if every line can be read where it stands, and an
  exception is that of the first line that cannot. The text of the table, read as C, is the
  array of structs. A hex string that becomes words, swapped words, a C initializer and memory of a
  little-endian host is, in the end, the bytes it denotes, from the text of the file to
  what the AES-GCM test sends over the transport and which chips it passes.
- **Verified boot** (`Runs`, `AvbDevice`, `AvbRuns`, `AvbTools`, `AvbSuite`). The chip's
  service is a relation: what the tests fix is fixed, everything else is left to the
  device. Over all runs: with carrier and boot lock set, production freezes the boot
  state, wipes of user data included; the boot lock is frozen exactly then; a challenge decides one reset; on a release
  image only the key holder ends production. The fixture and the tests are methods against
  any conforming device, and the tests hold in any order.
- **Weaver** (`Weaver`, `WeaverRuns`, `WeaverStore`). The value a read finds is decided
  by the slot's own history; guesses are throttled through sleeps and reboots; a store of
  five-slot records updated by read-modify-write answers like 64 independent slots.
- **Transport** (`ByteLog`, `Harness`, `Tty`). Framing and the one-shot answer buffer for
  any session, the byte log and exactly how far it determines what was sent, the write
  loop and the line reader on ports that stall.
- **Checks** (`Trng`, `AesCbc`, `NuggetStats`, `OwnerKey`). The histogram and its
  Kullback-Leibler statistic, the CBC reference, the inference of resets and sleeps from
  two samples of counters, and the reading of the owner key in chunks.

`dafny verify dfyconfig.toml` checks everything.

## Assumptions

Verified-boot rules. A rule is what the comment on a test's step says, for all values of
the kind used there: "cannot set while set" and "fails while BOOT is locked" are taken to
hold in production as well, where no test tries them. A request changes only the item it
names (asserted for the locks at src/avb_tests.cc:501-503, 531-533, 636-641 and 707-721).
A request whose outcome no test fixes may be granted or refused. A checked signature
spends its challenge whether good or bad (the test shows it for a bad one). Leaving
production clears the device data (needed at 753) and keeps or clears each lock and stored
version, at the device's choice. Signatures are an ideal function of nonce and device data.

A granted owner lock stores the key sent with it. While it is set outside production, a
request for part of the key is answered with exactly that part; beyond the end of the key
it is refused or answered with less. The largest key is a whole number of chunks; both
sizes are free.

Weaver rules. Read, written, erased and wiped slots behave as asserted; the counter after
a correct read, throttles after the sixth wrong key, and a correct key during a throttle
are left to the device. Time passes only in `Wait` requests, asleep or awake.

Low-power counters. A hard reset adds one to the reset count and clears the sleep count
and the time of the last wake-up; a sleep takes time and is followed by a wake-up. Taking
a sample takes no time on the host's clock.

Where code and intent part:

- `SendOneofProto` accepts message sizes 509 and 510, for which its array has no room
  (src/util.cc:254, src/util.h:53). The model requires callers to avoid exactly these
  (`OneofGuardIsLoose`).
- The copy loop of `GetOwnerKey` trusts the device not to answer more bytes than were
  asked for (src/avb_tests.cc:314-318); a device of the model never does (`ReadsKey`).
- `GetSpi` before any send succeeds with 510 zero bytes, because the buffer is created
  full of zeros (`EchoSession`).
- A frame boundary in the byte log looks like a line feed in a frame, so a log determines
  a session's frames only up to joining them with line feeds (`SessionsPrintAlike`).
- The rollback test passes exactly if all stored versions are zero after the fixture, and
  leaves them nonzero, so repeating it relies on a production reset clearing them
  (`Rollback`).
- Which vector files the compiler rejects is settled by `LoadVerdict`. The decryption
  vectors, which have a bare word for cases that must fail, are among them
  (`BareWordIsRefused`), and so are files with a comment between two blocks
  (`CommentEndsSection`).
- The statistic the random-number test calls the divergence is 256 times the divergence,
  so its limit of 15 is one of 15/256 bits (`KlIsScaledDivergence`).

## Model

| member | source | states |
|---|---|---|
| NistParser.LineList.Pop | src/test-data/NIST-CAVP/nist2h.py:29 | taking the first line off the shared list returns it and leaves the others |
| NistParser.ReadNistHeader | src/test-data/NIST-CAVP/nist2h.py:21-39 | the header loop returns the entries, or the exception, and leaves the lines, that the reader's function of the remaining lines gives; later keys win |
| NistParser.ReadNistBlock | src/test-data/NIST-CAVP/nist2h.py:58-68 | the inner loop of a block, likewise, ending at a blank line or at the end of input |
| NistParser.ReadNistBlocks | src/test-data/NIST-CAVP/nist2h.py:42-70 | the block loop, likewise, leaving the first header or comment line on the list |
| NistParser.LoadNist | src/test-data/NIST-CAVP/nist2h.py:73-90 | loading any text terminates, every pass taking a line, with the mode and sections, or the exception, of the function Load |
| NistTheorems.HeaderLineReadBack | src/test-data/NIST-CAVP/nist2h.py:32-36 | a written header line, brackets and all, parses to its key and integer |
| NistTheorems.BlockLineReadBack | src/test-data/NIST-CAVP/nist2h.py:65-68 | a written block line parses to its key and value, also when one of them is empty |
| NistTheorems.SectionsReadBack | src/test-data/NIST-CAVP/nist2h.py:79-89 | reading the lines of any writable sections gives those sections and blocks, in order |
| NistTheorems.LoadInvertsWriting | src/test-data/NIST-CAVP/nist2h.py:73-90 | for every preamble, list of writable sections and line ending, loading the written file returns the mode and exactly those sections |
| NistTheorems.EverySectionListIsWritten | src/test-data/NIST-CAVP/nist2h.py:76-89 | every list of sections with writable keys and values is the meaning of some writable file, so the round trip covers all header and block maps |
| NistTheorems.NoiseIsSkipped | src/test-data/NIST-CAVP/nist2h.py:81-84 | any comments and blank lines in front of sections make no difference |
| NistConcat.SectionsConcatenate | src/test-data/NIST-CAVP/nist2h.py:79-90 | for any lines ending in a blank line, and more that open with a header or comment, reading both in a row gives the first's sections and then the second's, or the first's exception |
| NistConcat.NoiseBetween | src/test-data/NIST-CAVP/nist2h.py:79-84 | comments and blank lines between two files or sections make no difference |
| NistErrors.OnePass | src/test-data/NIST-CAVP/nist2h.py:21-90 | for any lines at all the nested readers give the sections, or the exception, of a reader that goes through the lines once; the end of the file ends a block like a blank line |
| NistErrors.SectionsFailAt | src/test-data/NIST-CAVP/nist2h.py:21-90 | the lines give sections if and only if every one can be read where it stands, and an exception if and only if it is the one the first unreadable line raises |
| NistErrors.BlockEntryExactly | src/test-data/NIST-CAVP/nist2h.py:65-68 | a block line needs exactly one equals sign; each other number of them has its own exception; key and value are what is around it without blanks at the ends |
| NistErrors.HeaderEntryExactly | src/test-data/NIST-CAVP/nist2h.py:32-36 | the same for a header line with any brackets around it, and the value must be an integer |
| NistErrors.LinesOfText | src/test-data/NIST-CAVP/nist2h.py:74-75 | the lines of any text put together are the text, with line feeds only at their ends, and only the last one may lack it |
| NistErrors.ModeExactly | src/test-data/NIST-CAVP/nist2h.py:77 | the mode is the second of the second line's words, which single blanks separate |
| NistErrors.NoModeExactly | src/test-data/NIST-CAVP/nist2h.py:77 | looking up the mode fails exactly if there is no second line or it has no blank |
| Text.ParseIntExactly | src/test-data/NIST-CAVP/nist2h.py:36 | int() takes an optional sign and digits, leading zeros included |
| NistErrors.LoadVerdict | src/test-data/NIST-CAVP/nist2h.py:73-90 | a file loads if and only if it has a mode and every line can be read where it stands; it ends with an exception if and only if that is the missing mode, or the one raised at the first line that cannot be read in its place |
| NistErrors.BareWordIsRefused | src/test-data/NIST-CAVP/nist2h.py:65-66 | a line that is neither blank, comment nor an assignment can be read in no place, so a file with one is never loaded |
| NistErrors.CommentEndsSection | src/test-data/NIST-CAVP/nist2h.py:55-57 | a comment between two blocks ends the section, so that an entry after it is refused unless a header comes first |
| CavpVectors.Bswap32Involution | src/test-data/NIST-CAVP/nist2h.py:100-105 | swapping the byte order of a word twice gives the word back |
| CavpVectors.StoredSwap | src/test-data/NIST-CAVP/nist2h.py:100-105 | the swapped literal of a word, stored as a little-endian uint32, is the word's bytes in file order |
| CavpVectors.StoredWordsOfValue | src/test-data/NIST-CAVP/nist2h.py:93-105 | the same for all words of a value of any length, the last one zero-padded |
| CavpVectors.LiteralsReadBack | src/test-data/NIST-CAVP/nist2h.py:117-118 | a C compiler reading the initializer recovers exactly the words written, whatever follows |
| CavpVectors.ArrayHoldsValue | src/test-data/NIST-CAVP/nist2h.py:93-105 | in memory the whole array is the value's bytes and then zeros, padding included |
| CavpVectors.VectorMeaning | src/test-data/NIST-CAVP/nist2h.py:93-119 | for every hex string of whole bytes: split, swapped, written, compiled, stored and viewed by its bit length it is the bytes it denotes |
| CavpVectors.HexDump | src/cavptests.cc:128-134 | the dump loop prints two digits per byte, in order |
| CavpVectors.DumpGivesTextBack | src/cavptests.cc:128-134 | dumping the bytes a hex string denotes prints the string in lower case |
| NistRows.Format32 | src/test-data/NIST-CAVP/nist2h.py:108-119 | in whatever order the keys come, Count is kept as it is, empty values are dropped and every other value becomes its initializer |
| NistRows.RowExactly | src/test-data/NIST-CAVP/nist2h.py:148-169 | a block has a row if and only if all lookups succeed, and otherwise the error names the first that fails, in the order of the program |
| NistRows.MakeRow | src/test-data/NIST-CAVP/nist2h.py:148-169 | the lookups in their order give the row, or the key missing first, of the function RowOf; what RowOf gives is stated by RowExactly and RowMeaning |
| NistRows.WriteRows | src/test-data/NIST-CAVP/nist2h.py:146-169 | the nested loops write the rows of all sections in order and stop at the first failed lookup; what the text of the rows is in C is stated by TableReadBack |
| NistRows.OneRowPerBlock | src/test-data/NIST-CAVP/nist2h.py:146-169 | the table has exactly one row per block, in order, unless a lookup fails; then it has the rows of the blocks before that one |
| NistRows.LoadFiles | src/test-data/NIST-CAVP/nist2h.py:176-181 | the sections of all input files one after another, or the first exception; every section has a header |
| NistRows.LoadAllSplit | src/test-data/NIST-CAVP/nist2h.py:176-181 | more input files add their sections behind, and none of them is read if an earlier one fails |
| NistRows.Compile | src/test-data/NIST-CAVP/nist2h.py:174-183 | over all input files the program writes one row per block, in order |
| NistRows.FieldsReadBack | src/test-data/NIST-CAVP/nist2h.py:164-169 | a C compiler splits a row back into the initializers and lengths it was made from |
| NistRows.RowReadBack | src/test-data/NIST-CAVP/nist2h.py:130-169 | C reads the line, its blanks, braces and commas included, as one element whose fields get these values in order, and then a comma |
| NistRows.TableReadBack | src/test-data/NIST-CAVP/nist2h.py:145-170 | C reads the text of all lines together as exactly their elements in order |
| CavpTests.RowMeaning | src/test-data/NIST-CAVP/nist2h.py:108-169 | every row of hex values, whatever the lengths are, is C for the struct of these values' words with the header's lengths |
| CavpTests.VectorReachesTest | src/test-data/NIST-CAVP/nist2h.py:108-169 | the row of every block whose lengths match its header is C for a struct whose arrays, seen through their lengths, are the block's values |
| CavpTests.TableReachesTests | src/test-data/NIST-CAVP/nist2h.py:145-169 | a table of such blocks is complete, and its text is C for an array that carries them element by element |
| CavpTests.FileReachesTests | src/test-data/NIST-CAVP/nist2h.py:73-183 | from the text of a vector file to the test's array: one element per block, in order, with the block's values |
| CavpTests.SameBytes | src/cavptests.cc:135-142 | size check and byte loop accept exactly chars that hold the expected bytes: the byte itself below 128, and 256 less from there on |
| CavpTests.CheckCase | src/cavptests.cc:125-161 | a case passes exactly if cipher text and tag are those of the struct |
| GcmTest.RunCase | src/cavptests.cc:91-161 | for a row that carries a block of the file, send, receive and all assertions pass exactly a chip that answers the request made of the file's key, IV, plain text and AAD, in the right message and without error, by the file's cipher text and tag |
| GcmTest.RunTable | src/cavptests.cc:88-162 | the loop over the table passes exactly the chips that pass every block |
| GcmTest.RunVectorFile | src/cavptests.cc:76-162 | from the text of a written vector file, through compiler and table, to the verdict: exactly the chips pass that answer every block as the file says |
| AvbDevice.StepExists | src/avb_tests.cc:341-890 | the rules taken from the tests do not contradict each other: every request has an outcome in every state |
| AvbDevice.StepKeepsValid | src/avb_tests.cc:735-754 | outside production the device data stays all zero |
| AvbRuns.FreezeStep | src/avb_tests.cc:365-373 | in production with carrier and boot lock set, no request other than a production reset moves either lock or leaves production, and none but a wipe may set the owner lock |
| AvbRuns.Freeze | src/avb_tests.cc:482-503 | the same over every run without a production reset, at every point of it; the owner lock stays clear as long as there is no wipe |
| AvbRuns.BootLockMoves | src/avb_tests.cc:463-475 | without the carrier lock some conforming run changes the boot lock in production, even past a device lock |
| AvbRuns.FrozenExactly | src/avb_tests.cc:453-533 | in production the boot lock keeps its value in every run without a production reset, wipes included, if and only if it and the carrier lock are set |
| AvbRuns.HlosCannotRollBack | src/avb_tests.cc:656-666 | in production, until the boot loader runs again or production is reset, no run, wipes included, changes a stored version or the boot lock |
| AvbRuns.SpentUntilNextChallenge | src/avb_tests.cc:785-798 | after a reset attempt, good or bad, every later one is denied without effect until a new challenge is issued |
| AvbRuns.ChallengeDecidesOnce | src/avb_tests.cc:785-805 | between two resets that had a challenge to be decided by lies a new challenge |
| AvbRuns.NonceWasIssued | src/avb_tests.cc:777-805 | a pending nonce is the last one issued, and no reset has used it |
| AvbRuns.OnlyTheKeyHolderEndsProduction | src/avb_tests.cc:758-806 | on a release image production ends only at a reset signed by the key holder over the latest, unused nonce and the device's data |
| AvbTools.AvbClient.SetProduction | tools/avb_tools.cc:109-126 | absent data is sent as 32 zero bytes when production is set; the outcome is as the rules say |
| AvbTools.AvbClient.ResetWith | tools/avb_tools.cc:70-86 | an absent signature is sent as zeros; the pending challenge decides |
| AvbTools.AvbClient.GetResetChallenge | tools/avb_tools.cc:88-107 | the nonce is nonzero and pending, the selector is for the current key, the device data is copied as far as there is space, and the full size is returned |
| AvbTools.AvbClient.ResetProduction | tools/avb_tools.cc:128-150 | challenge, zero signature whatever comes of it, and success exactly if the device has left production |
| AvbTools.AvbClient.SetUp | src/avb_tests.cc:115-140 | the fixture ends clean from every state of a TEST_IMAGE device; on another device in production it fails and changes nothing but the boot mode and the challenge |
| AvbSuite.CarrierLockTest | src/avb_tests.cc:341-374 | every assertion holds on every conforming device |
| AvbSuite.DeviceLockTest | src/avb_tests.cc:401-441 | every assertion holds, also across the production reset in its middle |
| AvbSuite.SetDeviceLockIsIdempotent | src/avb_tests.cc:443-446 | every assertion holds |
| AvbSuite.BootLockTest | src/avb_tests.cc:448-534 | every assertion of its three parts holds |
| AvbSuite.SetBootLockIsIdempotent | src/avb_tests.cc:536-539 | every assertion holds |
| AvbSuite.SetBootLockAfterWipingUserData | src/avb_tests.cc:541-547 | every assertion holds |
| AvbSuite.OwnerLockTest | src/avb_tests.cc:549-606 | every assertion holds, those on the owner key read back in chunks included |
| AvbSuite.ProductionMode | src/avb_tests.cc:608-649 | every assertion holds, all four locks surviving the switch |
| AvbSuite.Rollback | src/avb_tests.cc:651-685 | passes exactly if all eight versions are zero when it starts, and leaves none zero |
| AvbSuite.ResetTest | src/avb_tests.cc:687-733 | every assertion holds |
| AvbSuite.GetResetChallengeTest | src/avb_tests.cc:735-754 | every assertion holds, that on the selector included, the device data being all zero whatever earlier tests set |
| AvbSuite.ResetProductionValid | src/avb_tests.cc:758-806 | every assertion holds for every signature scheme |
| AvbSuite.WipeUserDataDoesNotLockDeviceLock | src/avb_tests.cc:883-890 | every assertion holds |
| AvbSuite.RunSuite | src/avb_tests.cc:115-140 | the tests, each after the fixture, pass in any order with any repetitions from any state, the rollback test aside |
| Weaver.StepExists | src/weaver_tests.cc:85-173 | the rules taken from the tests do not contradict each other |
| WeaverRuns.WhatChangesASlot | src/weaver_tests.cc:62-65 | only a write of the slot changes its key; only that, its erase or a wipe changes its value |
| WeaverRuns.ValueIsItsHistory | src/weaver_tests.cc:332-338 | in every run a slot holds the last value written, or zero if erased or wiped since, whatever is written to other slots |
| WeaverRuns.ReadFindsHistory | src/weaver_tests.cc:186-227 | a read that finds a value was given the last key and finds that value; any other key is refused |
| WeaverRuns.RightKeyFinds | src/weaver_tests.cc:186-194 | up to the fifth WRONG_KEY answer since a write the right key is answered with the value |
| WeaverRuns.AnswersAre | src/weaver_tests.cc:291-316 | a slot that does not exist is refused without effect, every other write, erase or wipe is done, and a slot that is not throttled answers by the key alone |
| WeaverRuns.CounterFollowsAnswers | src/weaver_tests.cc:265-289 | since a write, through any guesses, sleeps, reboots and other slots' requests, the counter is the number of WRONG_KEY answers while guesses are free |
| WeaverRuns.FirstThrottleAfterFive | src/weaver_tests.cc:161-173 | the first four WRONG_KEY answers carry no throttle and the fifth 30 s; a THROTTLE answer before a sixth is nonzero and at most 30 s |
| WeaverRuns.ThrottledUntilTimePasses | src/weaver_tests.cc:258-263 | after the fifth, without a reboot, the next guess is throttled exactly if 30 s have not passed, for at most what is left |
| WeaverRuns.ThrottleRunsDownSinceReboot | src/weaver_tests.cc:241-263 | after the fifth, with any number of reboots, a THROTTLE answer is at most 30 s less the time waited since the last one, and a guess is answered again once that has passed |
| WeaverRuns.RebootKeepsThrottle | src/weaver_tests.cc:252-256 | a guess that would have been throttled still is after any number of reboots and other guesses, as long as no time passes |
| WeaverStore.RecordStore.Update | src/weaver_tests.cc:196-227 | changing one slot of a five-slot record and writing the record back changes that slot only |
| WeaverStore.RecordStore.WipeUserData | src/weaver_tests.cc:318-322 | the loop over all records zeroes every value and keeps every key |
| WeaverStore.RecordStore.Execute | src/weaver_tests.cc:186-227 | over any run of writes, reads, erases and wipes the packed store answers like 64 independent slots and ends in their state |
| WeaverStore.RunRefinesStore | src/weaver_tests.cc:332-338 | in any run of the throttled service every value found is the one the flat store answers |
| ByteLog.PrintFrame | src/util.cc:231-242 | the log loop writes the prefix, every byte escaped, a prefixed line per line feed, and a final line feed |
| ByteLog.FrameReadBack | src/util.cc:176-186 | the text of a frame decodes to exactly its bytes, where a byte that shows may not be written in hex |
| ByteLog.EscapedReadBack | src/util.cc:630-650 | so does the one-line text that the line reader logs |
| ByteLog.DifferentFramesPrintDifferently | src/util.cc:176-186 | two frames print the same exactly if they are equal |
| ByteLog.SessionsPrintAlike | src/util.cc:231-242 | two sessions print the same exactly if their frames, joined by line feeds, are the same bytes |
| ByteLog.BoundaryIsLost | src/util.cc:234-240 | a pair of frames and a single frame that print the same |
| Harness.FrameHeader | src/util.cc:226-229 | the type travels in front of the payload in two bytes, the upper one first |
| Harness.DecodedFrame | src/util.cc:390-392 | decoding a frame recovers type and payload |
| Harness.TestHarness.SendSpi | src/util.cc:217-247 | the frame is two big-endian type bytes and the payload; it is logged at INFO; the device's answer replaces the buffer |
| Harness.TestHarness.GetSpi | src/util.cc:371-395 | a buffer of two bytes or more is delivered decoded and emptied; a shorter one is an error and nothing changes |
| Harness.TestHarness.SendProto | src/util.cc:269-284 | a message of up to 510 bytes is framed and sent; a larger or incomplete one is refused before anything is sent |
| Harness.TestHarness.SendOneofProto | src/util.cc:249-267 | the same with the subtype in front, for sizes the array has room for |
| Harness.OneofGuardIsLoose | src/util.cc:254 | the size check passes what the array cannot hold exactly for sizes 509 and 510 |
| Harness.Session | src/util.cc:217-395 | in any sequence of sends and gets a get is answered from the send right before it, fails after another get, and at the very start delivers the initial zeros |
| Harness.EchoSession | src/runtests.cc:185-205 | against an echo device a get right after a send returns that send's type and payload |
| Harness.OneofRoundTrip | src/runtests.cc:56-59 | type, subtype and message come back from an echo device; the subtype check fails only for an empty message |
| Tty.BlockingWrite | src/util.cc:580-612 | for any pattern of partial writes, stalls and errors exactly the delivered prefix has been sent, once and in order, and success means all of it; the data is logged at INFO |
| Tty.UnbrokenDeliversAll | src/util.cc:602-610 | without an error everything is delivered, however often the port stalls |
| Tty.DeliversAllExactly | src/util.cc:602-610 | all is delivered exactly if every error comes only after enough bytes were taken |
| Tty.DeliveredUntilBroken | src/util.cc:602-610 | with an error, what the outcomes before the first one took is delivered |
| Tty.ReadLineUntilBlock | src/util.cc:614-653 | a closed terminal gives an empty line; otherwise the line is the bytes up to the first arrival that ends it, and what comes behind is left; a line is logged escaped at INFO |
| Tty.LineIsWhatWasRead | src/util.cc:627-642 | for any arrivals a line is exactly the bytes consumed for it, with a line feed at most at its end, and empty only if nothing was there at first |
| Tty.LineUntilItsEnd | src/util.cc:627-642 | a line goes on up to the first line feed or the first time nothing is there and more than four byte times are gone, and no further |
| Tty.FlushConsole | src/util.cc:166-170 | the pieces read, put together, are exactly the bytes consumed; none is empty; reading stops where nothing was there, and at once if the terminal is closed |
| Trng.AddBytes | src/runtests.cc:307-309 | every byte is counted once, in the bin of its unsigned value, and the total grows by the number of bytes |
| Trng.CountIsMultiplicity | src/runtests.cc:308 | a bin's count is how often its byte value occurs |
| Trng.CountAnswers | src/runtests.cc:293-315 | the bins hold the counts over all answers and add up to what was requested |
| Trng.KlDivergence | src/runtests.cc:318-324 | the loop yields the scaled sum of count log2(count ratio), or the failed assertion exactly if a count is zero |
| Trng.KlNonNegative | src/runtests.cc:318-324 | the statistic is never negative, and zero exactly if every count is the average, for any number of bins and samples |
| Trng.BalancedIsEqual | src/runtests.cc:319 | every count is the average exactly if all counts are equal |
| Trng.SomeLog2 | src/runtests.cc:322 | the laws assumed of log2 can be met |
| Trng.KlIsScaledDivergence | src/runtests.cc:318-324 | what is computed is the Kullback-Leibler divergence of the counts from uniform, in bits, times the number of bins |
| Trng.TrngTest | src/runtests.cc:280-330 | whatever the chip answers, the statistic exists if and only if sizes fit and every byte value is received; it is 256 times the divergence of the histogram, never negative and zero exactly for equal counts; the test passes exactly if it is below 15 |
| AesCbc.CbcSplits | src/runtests.cc:260-263 | CBC over a message in two calls with the chaining value carried over is CBC over the whole |
| AesCbc.CbcDecrypts | src/runtests.cc:260-263 | decryption of section 6.2 of NIST SP 800-38A gives every plain block back |
| AesCbc.ZeroMessageIterates | src/runtests.cc:253-263 | with zero plain text and IV, block i is the cipher applied i+1 times to the zero block |
| AesCbc.CheckCbc | src/runtests.cc:250-276 | for any cipher and number of blocks the test accepts exactly the CBC encryption of zeros together with its last block as IV |
| NuggetStats.ChecksAreExact | tools/nugget_tools.cc:138-186 | for every sequence of resets, sleeps and waking time between the samples, each of the three counter tests holds exactly for the sequences it is meant to detect |
| NuggetStats.WaitForSleep | tools/nugget_tools.cc:154-199 | true exactly if all calls worked and there was one sleep cycle and no reset, over at least four seconds |
| NuggetStats.RebootNugget | tools/nugget_tools.cc:98-152 | true exactly if all calls worked, there was one reset and no sleep after it, and the chip reports less time since the reset than 105/100 of what the host's clock saw pass |
| NuggetStats.WipeUserData | tools/nugget_tools.cc:201-239 | true exactly if all calls worked and there was no reset |
| AvbTools.AvbClient.GetOwnerKey | src/avb_tests.cc:298-324 | the answer's bytes are at the front of the buffer, the rest of it untouched, and the size is the answer's |
| OwnerKey.CheckOwnerKey | src/avb_tests.cc:569-579 | for every key of whole chunks, on a device with the owner lock set, the loop accepts exactly if the stored key starts with it, and has then read it |

## Left out

- AHDLC framing and CRC-16: the library they belong to is not part of this model.
- Terminal set-up, device discovery, threads, real clocks, `PrintUntilClosed`, `ReadUntil` and command-line flags: input and output only.
- Error messages on the standard error output, and the flags that dump requests or pick a single test case.
- Protobuf encoding: a message is its bytes and whether it serializes; a failing client connection ends the process and is not modelled.
- AES, RSA, SHA-256 and the other primitives: any function takes their place.
- Keymaster import and provisioning tests, CMAC vectors: single decisions or data without a visible implementation.
- The tokened carrier unlock and `ProductionResetTest`: one accepted and one rejected case each, over a fixed vector.
- Widths of counters: the low-power counters and the histogram do not wrap in the model; 64 bits are not reached in practice.
- Floating point: the statistic is computed over the reals; whether random bytes stay below its limit is a matter of chance.
- The comment, typedef and guards around the generated table, and the mode in their names: fixed text.
- SendOneofProto: message sizes 509 and 510 are excluded, because the array has no room for what the size check lets through; `RunCase` and `RunVectorFile` inherit this through `Fits`.
- ParseInt: a blank between sign and digits, which Python 2 may accept, is refused; keys and values are sequences of characters without an encoding.
- Python 2's order of a dictionary: the formatter is proved for every order.
- Storage of Weaver records: the tests tell only that five slots share a record; the layout inside a record is the model's own.
