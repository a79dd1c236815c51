# Amlogic Bluetooth vendor library: bring-up, HCI streams and wake-up data

A Dafny model of the parts of the vendor library that talk to the controller, with
proofs about whole runs. `dafny verify dfyconfig.toml` checks everything.

**Controller bring-up** (`BringUp`, `BringUpPlan`, `BringUpRuns`, `BringUpImage`,
`BringUpWake`, `BringUpEndings`, `BringUpCounters`, `BringUpSessions`, `BringUpByNumber`,
`HwConfig`, `BringUpDriver`). A start sends one command; every completion event then drives one
step through the dispatch table. The environment
decides, at every completion, the status byte, whether a buffer and memory can be
allocated, whether the transmitter accepts the command and whether the device node
opens. `BringUp` is that state machine on values. `HwConfig` is the code itself, a
class that fills command buffers in place, and each of its methods is proved equal
to the value model. `BringUpPlan` is an independent straight-line list of commands;
the machine is proved to walk through it, one command per completion, in every run.
`BringUpEndings` reads the outcome of every run off what the environment did,
`BringUpCounters` what it leaves in the wake-up counter, and `BringUpSessions` adds it
all up over any sequence of bring-ups, hung ones included. `BringUpByNumber` states the
central results once more in bytes, register numbers and counts, with no constant or
predicate of the machine in between.
`VendorCallbacks` keeps the account of buffers, commands and verdicts, and
`DeviceMemory` executes packets, decoded from their bytes, on a controller memory.

**HCI streams** (`SerialPort`, `ReadCourses`, `HciEvents`, `HciExchange`, `BoardPower`).
Reads and writes are cut up by plans that the library cannot see: a read may fail, find
nothing or bring a part. The event readers are proved against a frame that the stream
alone determines, and each of them finds it exactly if the plan brings it in time by that
reader's own counters; `ReadCourses` says what that means, on the plan alone.

**Wake-up data** (`ManfConf`, `WakeConfiguration`). Configuration text, the tables it
fills, and the commands that carry them.

**Power and relay** (`W2lVendor`, `Relay15p4`). When a shared chip may lose power, and
the 15.4 relay's sessions and frames.

## Where the code falls short of the obvious promise

These are stated with the exact condition:

- A start ignores the answer of the transmitter. A refused first command is never
  reported and its buffer never freed (`OutcomeOnInputs`).
- On a W1U behind SDIO or PCIe the step of the last DCCM chunk returns -1 from a
  `uint8_t` function if the device node does not open, which counts as "proceeding".
  If the chunk was also refused, the run hangs without a verdict; in every other run
  there is exactly one (`OneVerdictExactOwnership`, `OutcomeOnInputs`,
  `RefusedLastChunkHangs`).
- A download that does not get as far as closing the download mode leaves its two image
  buffers allocated, and the next download overwrites the pointers to them
  (`BringUpImages`, `EverySessionAccounted`).
- A firmware file with the 12-byte header and no extra ICCM is read as if it had the
  8-byte header (`LongLayoutLoads`); on a W1U off USB a file with the 8-byte header
  loads exactly if its sections start with the ROM start code (`ShortLayoutLoads`).
- The row-table wake-up command is well formed exactly up to 254 bytes of records
  (`RecordsRoundTrip`), and it is the only command that can exceed its buffer, exactly
  beyond that (`CommandFitsExactly`). Six configured bytes make a well-formed command
  exactly if the first is five (`WakeGroupWellFormed`).
- Configured wake-up data is counted down by a run, and by an aborted run before it is
  sent. A second run without a reload of the configuration sends what the counter says,
  from the start of the data: the default if nothing is left, a shorter part of the
  data if something is. It sends the configured data again exactly if nothing was
  taken, or it is a downloading W1 and a group is left, or that data is the default and
  all of it was taken (`SecondRunWakeData`, `SecondAfterSuccess`, `CounterAfterRun`).
- What `read_hci_event` returns is, with its place in the stream, no frame of the stream
  exactly when its buffer holds a stale packet indicator and the first read finds
  nothing (`ReadHciEvent`, `StaleFrameIsNone`, with the run of
  `StaleIndicatorExample`). The library's only caller clears the buffer before
  (`aml_libbt-vendor/src/vendor_common.c:514-516`).
- Whether `read_hci_event` finds an event depends on how the reads are cut. It does
  exactly if its one counter, which counts junk bytes, later reads and reads that find
  nothing, stays within 101 before the type, 201 behind the header and 301 behind the
  parameters (`ReadHciEvent`); byte by byte that is up to 101 bytes of junk and 302 in
  all (`DripsCounted`), and it is enough that junk and empty reads together stay
  within 101, and within 302 with the event (`FewEmptiesFind`). The polling reader has no
  limit on junk, and gives up at the first empty read (`ReadHciEventPoll`).
- `aml_hci_send_cmd` returns a positive length even if no answer came (`AmlHciSendCmd`).
- A failed ioctl on the coexistence device counts as "no 15.4 radio". Power is in truth
  cut from a live radio exactly in the operations that meet both (`CutsExactly`,
  `PowerSafety`).
- The 15.4 server leaves its session field behind at exit; it is clean for the next run
  exactly if every connection was followed by an end of its session (`CleanExit`).

## Model

| member | source | states |
|---|---|---|
| BringUpRuns.RunFollowsPlan | aml_libbt-vendor/src/hardware.c:1437-1500 | In every run of every start, under any statuses, failed allocations and refusals, the commands on the wire are a prefix of the straight-line plan, at most one is in flight, and success implies the whole plan. |
| BringUpRuns.OneVerdictExactOwnership | aml_libbt-vendor/src/hardware.c:1459-1499 | A finished run has reported exactly one verdict, is back at state 0 and every buffer was handed over or freed exactly once, if and only if neither the first command was refused nor a stranding completion came; otherwise there is no verdict and exactly one lost buffer. |
| BringUpRuns.CompletionOutcome | aml_libbt-vendor/src/hardware.c:1455-1499 | One completion either takes exactly one command off the remaining plan, or ends the run with one verdict and nothing owned, or hangs, and it hangs exactly under the stranding condition. |
| BringUpEndings.OutcomeOnInputs | aml_libbt-vendor/src/hardware.c:1455-1499 | The outcome of every bring-up as a function of what the environment did: still waiting exactly if every completion so far sent the next command of the plan, success exactly if all of it went out and the last completion arrived well, a hang exactly under a refused first command or a refused last DCCM chunk after clean completions on a W1U off USB, failure in every other case. |
| BringUpEndings.LosesBufferExactly | aml_libbt-vendor/src/hardware.c:986-1009 | A buffer is lost exactly under the same condition on the completions, for every chip, file and start. |
| BringUpEndings.RefusedLastChunkHangs | aml_libbt-vendor/src/hardware.c:986-1009 | For every such chip and file the hang is reached by clean completions up to the last chunk followed by one stranding completion. |
| BringUpSessions.EverySessionAccounted | aml_libbt-vendor/src/hardware.c:1689-1898 | Over any sequence of finished bring-ups, failed and hung ones included: the verdicts are those the inputs determine, in order; verdicts and hangs together are as many as bring-ups; one buffer is lost for each hang and no other; the image pairs lost and the wake-up counter left are functions of the inputs. |
| BringUpSessions.BringUpAccounted | aml_libbt-vendor/src/hardware.c:1455-1499 | The same of one bring-up that begins after any others, however those ended. |
| BringUpSessions.LosingBringUp | aml_libbt-vendor/src/hardware.c:1695-1769 | A bring-up after hangs does exactly what it does from rest, with the lost buffers still owned, so every result about runs from rest carries over. |
| BringUpCounters.CounterAfterRun | aml_libbt-vendor/src/hardware.c:1304-1338 | The wake-up counter after every run, finished or not: six less for each wake step that a completion dispatched, whether or not its command was accepted. |
| BringUpCounters.RefusedGroupIsGone | aml_libbt-vendor/src/hardware.c:1318-1338 | A start without download that gets k of n groups out, and whose next command is refused, has n - k - 1 groups left: the refused one is gone without having been sent. |
| BringUpSessions.SecondRunWakeData | aml_libbt-vendor/src/hardware.c:1285-1338 | After a first bring-up that finished in any way, a successful second one without a reload sends what the first left in the counter, from the start of the data; it is the configured data again exactly in three cases. |
| BringUpSessions.SecondAfterSuccess | aml_libbt-vendor/src/hardware.c:1318-1338 | After a successful first bring-up: the configured data goes out again exactly if there was none, or both download a W1 with two groups or more, or all of it was sent and was the default. |
| BringUpEndings.BringUpImages | aml_libbt-vendor/src/hardware.c:855-875 | One bring-up frees the images exactly if clean completions carry it to the close and one more gets its buffer; it loses a pair exactly if it loads while one is live. |
| BringUpRuns.SmoothRunSucceeds | aml_libbt-vendor/src/hardware.c:1414-1426 | With a willing environment a run ends in success after exactly as many completions as the plan has commands; for a download, if the ICCM is longer than 384 KiB on a W2L and 256 KiB on any other chip. |
| BringUpByNumber.DownloadRun | aml_libbt-vendor/src/hardware.c:839-1349 | The commands of every successful download by register, value and address, for every chip: enable and power-up, the image, the close, the radio settings, the CPU release, the device address and the wake-up data, group by group. |
| BringUpByNumber.OtherRuns | aml_libbt-vendor/src/hardware.c:1689-1769 | The same of the start without download and of the reset. |
| BringUpByNumber.DownloadSucceedsExactly | aml_libbt-vendor/src/hardware.c:1455-1499 | A download succeeds exactly if the ICCM reaches beyond the ROM, the first command is accepted, each of the next m completions has a clean status, a buffer and an accepted command (memory too for the row table), and one more arrives well, where m is a sum of block counts. |
| BringUpByNumber.DownloadHangsExactly | aml_libbt-vendor/src/hardware.c:986-1009 | A download ends without a verdict exactly if its first command is refused, or, on a W1U off USB, as many clean completions as there are blocks are followed by one whose command is refused and whose device node does not open. |
| BringUpByNumber.DownloadFreesExactly | aml_libbt-vendor/src/hardware.c:1012-1036 | A download frees its images exactly if all blocks and the command before them go out and the next completion gets its buffer; it loses a pair exactly if it gets its first buffer while one is live. |
| BringUpByNumber.RegisterPackets | aml_libbt-vendor/src/hardware.c:1012-1050 | Every byte of a register packet: opcode, length, address and value, the lowest byte first. |
| BringUpByNumber.DefaultWakeUp | aml_libbt-vendor/src/hardware.c:1285-1300 | The default wake-up data is a well-formed command, with its five parameter bytes. |
| BringUpRuns.RunIsBounded | aml_libbt-vendor/src/hardware.c:1437-1500 | No run, however it ends, consumes more completions than its plan has commands; with that many it is over. |
| BringUpImage.DownloadRunLength | aml_libbt-vendor/src/hardware.c:915-1171 | For an ICCM longer than its ROM part, the plan of a download has exactly 7 + ceil(I/248) + ceil(D/248) + M commands, plus 2 on a W2, where I counts the ICCM above 393216 bytes on a W2L and above 262144 on any other chip. |
| BringUpPlan.StepOnPlan | aml_libbt-vendor/src/hardware.c:204-229 | Every entry of the dispatch table offers exactly the next command of the remaining plan and keeps the state sound; it refuses only a doomed download or for lack of memory. |
| BringUpImage.FirmwareImageArrives | aml_libbt-vendor/src/hardware.c:927-948 | After any successful download run, replaying the packets on any initial memory leaves the ICCM above the ROM part, which ends at 393216 on a W2L and at 262144 on any other chip, and the whole DCCM in place, every other address unchanged, and no address written twice. |
| BringUpImage.HoldsImageMeans | aml_libbt-vendor/src/hardware.c:927-944 | The same by address: the ICCM lies at zero, the DCCM at 0xd00000, and nothing else changed. |
| BringUpImage.FirmwareSectionsArrive | aml_libbt-vendor/src/hardware.c:1832-1888 | The same from the bytes of the file: two little-endian size words and two sections, or three words and three sections with the extra ICCM skipped; what arrives are the ICCM and DCCM sections. |
| BringUpImage.AbortedRunStoresPrefix | aml_libbt-vendor/src/hardware.c:971-991 | Whatever goes wrong, the stores made so far are a prefix of the intended stores. |
| BringUpImage.ReleaseOnlyAfterDownload | aml_libbt-vendor/src/hardware.c:1012-1151 | In every run, when a packet decodes to a write of the CPU release register, or is the device address, all image bytes have been stored, download mode has been closed since, and nothing was stored afterwards. |
| BringUpImage.AddressFollowsRelease | aml_libbt-vendor/src/hardware.c:1125-1171 | In every download run the device address directly follows the packet that writes 0x700 on a W1 or W1U, and 0x70000 on the others, to register 0xf03058. |
| BringUpImage.NothingToDownloadFails | aml_libbt-vendor/src/hardware.c:920-926 | A file whose ICCM does not reach beyond the ROM (393216 bytes on a W2L, 262144 on any other chip) is never a success: at most two register writes go out, and two completions end the run in failure. |
| BringUpImage.ChunksStores | aml_libbt-vendor/src/hardware.c:927-944 | Chunking by 248 loses, repeats and misplaces no byte: decoded, the chunks store exactly the data at consecutive addresses. |
| BringUpWake.WakeDataConserved | aml_libbt-vendor/src/hardware.c:1304-1348 | A successful run puts exactly the configured bytes on the wire, in order and once (six on a downloading W1), and leaves the counters counted down by what it sent. |
| BringUpWake.WakeGroupWellFormed | aml_libbt-vendor/src/hardware.c:1317-1326 | A six-byte group parses as a command exactly if its first byte is five, and then carries the other five. |
| BringUpWake.RecordsRoundTrip | aml_libbt-vendor/src/hardware.c:1231-1267 | The row-table command parses exactly if its records total at most 254 bytes; then its length matches, it fits the buffer, and walking it gives back the number and the selected records in order. |
| WakeConfiguration.RowTableRoundTrip | aml_libbt-vendor/src/hardware.c:1225-1271 | For increasing row numbers whose powers of two add up to the low sixteen bits of the mask, the receiver of the planned command recovers exactly the groups of those rows, in order, or the total is too long and it is no command. |
| WakeConfiguration.MaskSelects | aml_libbt-vendor/src/hardware.c:1231-1236 | The rows that the bit test selects are those whose powers of two add up to the low sixteen bits of the mask; higher bits select nothing. |
| WakeConfiguration.RowsReachTheWire | aml_libbt-vendor/src/hardware.c:1173-1278 | The same of the last command that a successful W1U download, or quick start of a W2 off USB, puts on the wire: exactly the groups of the rows that the bits of the mask name. |
| WakeConfiguration.LoadRows | aml_libbt-vendor/src/conf.c:212-240 | Any line that spells the groups fills one row per group and nothing else. |
| WakeConfiguration.GroupsReachTheWire | aml_libbt-vendor/src/hardware.c:1376-1411 | A successful run over a table of six-byte groups ends with one command per group, in order, each parsing to its group where the group's first byte is five. |
| HciCommand.DecodeDownload | aml_libbt-vendor/src/hardware.c:927-940 | Parsing a download command gives back address and data, its length byte is data + 4 without truncation and it fits the command buffer. |
| HciCommand.ParseEncode | aml_libbt-vendor/include/bt_vendor_aml.h:480-483 | A packet parses to opcode and parameters exactly if the parameters fit the length byte. |
| HciCommand.BdAddrRoundTrip | aml_libbt-vendor/src/hardware.c:599-608 | The address command carries the six bytes last one first. |
| BringUp.RegisterFields | aml_libbt-vendor/src/hardware.c:1066-1072 | Antenna, sink mode, pin mux, factory, system and gains can each be read back from their fields of the two register words. |
| FirmwareFile.ShortLayoutLoads | aml_libbt-vendor/src/hardware.c:757-820 | Probe and loader find exactly the two sections of a file with the 8-byte header, if and only if, on a W1U off USB, its sections start with the ROM start code. |
| FirmwareFile.LongLayoutLoads | aml_libbt-vendor/src/hardware.c:1832-1884 | For the 12-byte header they do so exactly if there is extra ICCM, or the sections merely repeat the size word. |
| FirmwareFile.LoadableExactly | aml_libbt-vendor/src/hardware.c:757-820 | The files that load, by the words of their header: both sizes between one byte and one mebibyte, and no section beyond the end. |
| HwConfig.ProbeSizes | aml_libbt-vendor/src/hardware.c:725-820 | The sequential reads of the probes yield the sizes of the layout function. |
| HwConfig.ReadImages | aml_libbt-vendor/src/hardware.c:1832-1884 | Reading past the header and over the extra ICCM yields the two images. |
| HwConfig.HwConfig.LoadImages | aml_libbt-vendor/src/hardware.c:828-875 | Lengths, offsets and images as the value model prescribes, with the ROM part skipped. |
| HwConfig.HwConfig.IccmUart | aml_libbt-vendor/src/hardware.c:915-957 | The step offers the next ICCM chunk as bytes in the buffer and advances the globals as the value model says. |
| HwConfig.HwConfig.DccmUart | aml_libbt-vendor/src/hardware.c:960-1010 | The same for DCCM, including the -1 result. |
| HwConfig.HwConfig.SetWaveformData | aml_libbt-vendor/src/hardware.c:1173-1278 | The step gathers the selected rows and offers them as one command, or the default, or finishes at once. |
| HwConfig.HwConfig.CollectRecords | aml_libbt-vendor/src/hardware.c:1231-1257 | The gathering loop leaves exactly the selected records, concatenated, and their number; its overflow check never fires. |
| HwConfig.RecordsBounded | aml_libbt-vendor/src/hardware.c:1236-1240 | Whatever the mask selects, the records of a table of sixteen-byte rows total at most 256 bytes. |
| HwConfig.CommandFitsExactly | aml_libbt-vendor/src/hardware.c:1455-1475 | Every step's command fits the buffer allocated for it, except exactly a row table of more than 254 bytes, which exceeds it by at most two. |
| HwConfig.HwConfig.SendWakeData | aml_libbt-vendor/src/hardware.c:1280-1349 | The step offers the next six configured bytes or the default and moves both counters without wrap-around. |
| HwConfig.HwConfig.ControlStep | aml_libbt-vendor/src/hardware.c:1012-1171 | The register writes and the device address, with the chip-dependent next state and values. |
| HwConfig.HwConfig.DispatchStep | aml_libbt-vendor/src/hardware.c:1472-1475 | Every state's step equals the value model's outcome. |
| HwConfig.HwConfig.Cback | aml_libbt-vendor/src/hardware.c:1437-1500 | The callback's effect on globals, buffers, wire and verdicts is exactly the value model's; no buffer is freed or handed over that is not owned. |
| HwConfig.HwConfig.ConfigStart | aml_libbt-vendor/src/hardware.c:1758-1898 | The start of a download, or of the reset path, equals the value model's. |
| HwConfig.HwConfig.ConfigQuickStart | aml_libbt-vendor/src/hardware.c:1689-1746 | The start without download equals the value model's. |
| BringUpDriver.DeliverAll | aml_libbt-vendor/src/hardware.c:1455-1475 | The callback, fed any completions for as long as one is due, ends where the value model's run ends. |
| BringUpDriver.FirmwareBringUp | aml_libbt-vendor/src/hardware.c:1885-1886 | A whole firmware bring-up of the code, after any others, sends a prefix of its plan, and all of it on success. |
| SerialPort.DoWrite | aml_libbt-vendor/src/vendor_common.c:240-285 | Under any short writes the result is the length exactly if the whole buffer is on the wire; otherwise a proper prefix is, and the first write that failed or accepted nothing decided the result. The text of `hci_write_cmd` (lines 581-626) is the same. |
| HciEvents.FrameIsUnique | aml_libbt-vendor/src/vendor_common.c:310-394 | The stream determines the frame and where it ends, so two positive results of a reader on the same stream are the same, however the reads were cut. |
| HciEvents.ReadHciEvent | aml_libbt-vendor/src/vendor_common.c:296-395 | A positive result is a frame of the stream, with exactly the junk before it and the frame consumed, except exactly when a stale indicator meets a first read that finds nothing: then the stale byte stands for the first byte of the frame. At most 303 reads. Without a stale start, an event in the stream is found exactly if the reads that it takes, with junk and empty ones, leave the one counter within 101, 201 and 301 in its three phases. |
| HciEvents.FewEmptiesFind | aml_libbt-vendor/src/vendor_common.c:315-336 | With no failing read and at most e empty ones, an event of L bytes behind j bytes of junk is in time in every chunking if j + e is at most 101 and j + L + e at most 302. |
| ReadCourses.DripsCounted | aml_libbt-vendor/src/vendor_common.c:310-394 | Read byte by byte, it is in time exactly if the junk is at most 101 bytes and the event ends within 302. |
| ReadCourses.LateType | aml_libbt-vendor/src/vendor_common.c:315-336 | Up to 101 empty reads before the type are in time for the reader with one counter, and fewer than ten for the non-blocking one. |
| ReadCourses.LateHead | aml_libbt-vendor/src/vendor_common.c:338-361 | Up to 200 empty reads before the header, and fewer than ten for the non-blocking reader. |
| ReadCourses.LateBody | aml_libbt-vendor/src/vendor_common.c:369-392 | Up to 299 empty reads before the parameters, and fewer than ten for the non-blocking reader. |
| HciEvents.StaleFrameIsNone | aml_libbt-vendor/src/vendor_common.c:314-328 | With its place in the stream, what the stale case returns is never a frame of the stream. |
| HciEvents.StaleIndicatorExample | aml_libbt-vendor/src/vendor_common.c:314-328 | A run of the reader that returns four bytes as an event on a stream that holds no frame. |
| HciEvents.ReadHciEventPoll | aml_libbt-vendor/src/vendor_common.c:397-492 | The polling reader finds the same frames; an event in the stream is found exactly if, from its first byte of junk on, every select announces data and every read brings some. |
| ReadCourses.SteadyPolls | aml_libbt-vendor/src/vendor_common.c:397-492 | When data keeps coming, that is so in every chunking, however much junk comes first. |
| HciEvents.HciReadEvent | aml_libbt-vendor/src/vendor_common.c:628-745 | Zero means nothing was consumed; otherwise the consumed bytes stand in front of the buffer, a whole frame if the result is positive. An event at the front is found exactly if fewer than ten reads in a row find nothing (EAGAIN included) in each of the three phases and none fails; ten or more before it give zero. |
| HciExchange.ReadersAgree | aml_libbt-vendor/src/vendor_common.c:296-745 | On a stream that starts with an event that is in time for each of them by its own rules, the three readers return the same count and bytes and consume the same. |
| HciExchange.AmlHciSendCmd | aml_libbt-vendor/src/vendor_common.c:495-536 | On a stream of events, under any chunking and any empty reads, a positive result means that the response is the first answer and the stream stands right behind it, if it is among the first forty; if not, it is the fortieth event. While writes make progress the result is positive exactly if every event up to that one is in time, and so if no read fails and at most 44 find nothing. Reads are bounded. |
| HciExchange.FewEmptiesTimely | aml_libbt-vendor/src/vendor_common.c:512-524 | No failing read and at most 44 empty ones in the whole exchange leave every event in time. |
| HciExchange.EventUpFront | aml_libbt-vendor/src/vendor_common.c:363-372 | With a buffer of 260 bytes a reader asks for exactly the next whole event of a concatenation. |
| BoardPower.AmlUartInit | aml_libbt-vendor/src/vendor_common.c:824-918 | At most three attempts take consecutive pieces of the stream; success exactly if the last piece begins with the expected reply, and no earlier one does; only then 4 Mbaud; one power cycle per failed attempt; one command on the wire per attempt while writes complete. On a stream of events each attempt takes one event, if fewer than 200 reads find nothing before it and fewer than ten in its header and in its parameters; success is then exactly a match among the first three, with a power cycle for each event before it. |
| HciExchange.LateReplies | aml_libbt-vendor/src/vendor_common.c:859-881 | Any number of empty reads before the first reply, with EAGAIN or without, as long as they are below 200 with the fewer than ten behind them, leave every reply in time. |
| BoardPower.HandshakeBytes | aml_libbt-vendor/src/vendor_common.c:835-857 | The bytes of command and reply: the reply is a Command Complete for just this command. |
| BoardPower.MatchCameFromStream | aml_libbt-vendor/src/vendor_common.c:859-887 | The cleared buffer compares equal to the expected reply exactly if the bytes taken from the stream begin with it: no byte of a match is padding. |
| W2lVendor.W2l.PowerCtrl | aml_libbt-vendor/src/interface_uart/w2l_vendor.c:130-235 | The effect on the rail and the exact result, on the bits of the status: powering off cuts the rail exactly if it gets to read the status and does not see bit 1 or bit 2; powering on succeeds exactly if the coex node opens, one of the first sixty probe polls is positive and, in coexistence mode, the relay thread starts. Also the status kept and the relay thread's exit flag. |
| W2lVendor.W2l.UserialOpen | aml_libbt-vendor/src/interface_uart/w2l_vendor.c:250-321 | The exact result, and the effect on the rail: behind the status reading, none if bit 1 or bit 2 is seen, else one power cycle per failed attempt of the handshake, whose attempts are the pieces of the stream that they took. The register reads take the next pieces; on a stream of events that come in time, one event each. |
| W2lVendor.OpenByBits | aml_libbt-vendor/src/interface_uart/w2l_vendor.c:250-321 | What opening returns and does to the rail, on the descriptors and the bits of the status. |
| BoardPower.ReadRegisters | aml_libbt-vendor/src/vendor_common.c:922-1027 | Register reads take consecutive pieces of the stream and send one command each; when writes complete and whole events come in time, one event each. |
| W2lVendor.PowerSafety | aml_libbt-vendor/src/interface_uart/w2l_vendor.c:140-157 | Over all sequences of operations, at every power-off the library saw bits 1 and 2 clear in the status read last; in truth they were exactly if no operation cut the power on a failed ioctl with a radio alive. |
| W2lVendor.SafeLogMeans | aml_libbt-vendor/src/interface_uart/w2l_vendor.c:140-157 | What safety and true safety of a log mean on the bits of the statuses read. |
| BoardPower.AliveBits | aml_libbt-vendor/include/vendor_common.h:147-148 | A radio lives exactly if bit 1 (Zigbee) or bit 2 (Thread) of the status is set. |
| W2lVendor.MakeCalls | aml_libbt-vendor/src/interface_uart/w2l_vendor.c:130-321 | The same of the code over any calls on one board: at every power-off the status read last had both bits clear, if its ioctl worked or all do. |
| W2lVendor.OpIsSafe | aml_libbt-vendor/src/interface_uart/w2l_vendor.c:255-282 | Each operation relies on a reading of its own, also for the retries of the handshake, and is truly safe exactly if it does not cut blindly. |
| W2lVendor.CutsExactly | aml_libbt-vendor/src/vendor_common.c:794-808 | An operation cuts the power exactly if it gets that far (power-off without user shutdown, or an open whose handshake has a failed attempt) and not both the ioctl worked and bit 1 or bit 2 of the status was set. |
| ManfConf.LineSpells | aml_libbt-vendor/src/conf.c:184-210 | Every list of groups has a line that the parsers accept for it. |
| ManfConf.CharacterSets | aml_libbt-vendor/src/conf.c:169-200 | White space and hexadecimal digits of both cases, character by character. |
| ManfConf.Conf.ManfDataSplit | aml_libbt-vendor/src/conf.c:184-210 | The flat table receives the groups one behind the other and nothing else changes. |
| ManfConf.Conf.W1uManfDataSplit | aml_libbt-vendor/src/conf.c:212-240 | Row k receives group k and every other cell keeps its value. |
| ManfConf.Conf.LoadManfData | aml_libbt-vendor/src/conf.c:315-331 | The count is a whole number of groups of six, so counting down by six ends at zero; a line that is not leaves zero, a short one the old count. |
| ManfConf.AmlTrim | aml_libbt-vendor/src/conf.c:169-182 | In place, exactly the white space at both ends is cut off. |
| Relay15p4.Server.Serve | aml_libbt-vendor/src/vendor_common.c:1124-1240 | The loop deals with the turns up to the first that stops it; it has then accepted exactly the descriptors of those turns and closed each once, in order, and leaves the field as those turns made it. |
| Relay15p4.CleanExit | aml_libbt-vendor/src/vendor_common.c:1229-1240 | After any turns the field names no session exactly if every accepted connection was followed by an end of the session. |
| Relay15p4.LastChangeDecides | aml_libbt-vendor/src/vendor_common.c:1150-1197 | The session is the one accepted last, unless it was ended since. |
| Relay15p4.Server.ServeTurn | aml_libbt-vendor/src/vendor_common.c:1144-1227 | One turn: a new connection replaces and closes the old session, an error or a request to close ends it, and the loop goes on unless the listener, `accept` or `recv` failed. |
| Relay15p4.DataCb | aml_libbt-vendor/src/vendor_common.c:1032-1056 | A frame is wrapped and sent exactly if its body has at most 249 bytes and a session exists. |
| Relay15p4.Loopback | aml_libbt-vendor/src/vendor_common.c:1213-1219 | Stripped for the controller and wrapped again, such a frame is unchanged. |

## Left out

- HwConfig.HwConfig.IccmUart: the two image buffers, filled once by `read` and never written again, are values; whether they are allocated is a flag, and pairs lost are a count. The counters move before the buffer is filled instead of after, which nothing can observe before the step returns. The same holds of DccmUart.
- HwConfig.HwConfig.ConfigStart: requires a known chip and a firmware file that opens, can be read in full and passes the size check; the exits before the first command and the register probe for an unknown chip are not modelled.
- HwConfig.HwConfig.SetWaveformData: each buffer is modelled with two bytes of the memory behind it, and what a store there does to its owner is not modelled; `CommandFitsExactly` says when it happens. Rows whose length byte points past the row, which the source would copy from the next rows, are excluded by the configuration. Firmware version logging is dropped.
- HciExchange.AmlHciSendCmd: its twin `aml_hci_send_cmd_poll`, which differs only in using the polling reader, is not modelled.
- BringUpRuns.RunFollowsPlan: begins at rest; `LosingBringUp` carries it to any finished state. Completions arrive only for commands in flight and after the step has returned; callbacks are installed; the antenna type is 1 or 2; no 15.4 transmission resets the state meanwhile.
- BoardPower.AmlUartInit: only finitely many writes fail; with writes that always fail the source repeats forever. The bytes after a power cycle are part of the one input stream.
- HciEvents.ReadHciEvent: `select`, sleeping and errno are reduced to the outcome of the read.
- W2lVendor.W2l.PowerCtrl: driver modules, thread join and the retries of opening a device are reduced to their outcomes.
- W2lVendor.W2l.UserialOpen: the ten register reads, ten calls in the source, are one loop over their addresses. Setting the line discipline and reading the chip function are dropped.
- ManfConf.Conf.ManfDataSplit: malformed text (odd digits, several spaces, more data than the table holds) is a precondition.
- Relay15p4.Server.Serve: a header that arrives in pieces is taken as received; if the peer closes in the middle of one, the source waits forever. A peer that closes between frames is never noticed. Without a session the source still tests descriptor -1 in the descriptor sets; the model takes it as not set.
- BringUpSessions.EverySessionAccounted: a start while a command of the bring-up before is still in flight is not modelled.
- Chip detection, backend tables, register debugging, LPM, SCO and epilog code: plumbing or compiled out.
