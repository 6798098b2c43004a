# stm32flash protocol engine and `itoh`, in Dafny

This project models two pieces of code and proves properties of both.

The first is the host side of `stm32flasher/stm32flash.py`. It is a client for the STM32 ROM bootloader's USART protocol, whose command set is section 3 of ST application note AN3155. The model covers:

- the frame codec: XOR checksums, checksummed frames, and the big-endian `i2nbytes`;
- the bounded read `read_n` and the ACK/NACK handshake `check_ack`;
- the ten `cmd_*` commands;
- the `reset` line sequence;
- `doit`: entering the bootloader, identifying the device, the page-by-page read loop, the erase-write-verify loop over a sparse memory image, and the final reset.

The second is the firmware helper `itoh` in `Hello-world/hello-world.c`, together with the callers that print a suffix of its buffer.

## How it is modelled

- **Bytes.** A byte is `Frames.byte`, an integer newtype `0..255`. XOR is defined bit by bit in `Bits`.
- **Port.** The serial port is `Transport.Port`, a class whose fields the operations update in place:
  - `rx`: a script of what each readiness poll finds. Each entry is `Arrive(bytes)`, `Silence` (the 2 s `select` times out) or `Fault` (`read` raises OSError). An exhausted script behaves as silence.
  - `tx`: the log of bytes written.
  - `flushes`: the number of `return_flush` calls.
  - `lines`: the log of break/RTS/DTR changes, sleeps and input flushes made by `reset`.
  - `Port.Value()` is the same state as a `Wire` value.
- **Imperative code, proved against functions.** `read_n`, `check_ack`, `sendcksum`, the commands, the two `doit` loops and `itoh` are `method`s with loops or straight-line steps. Each `ensures` that its result and the new port state equal a function of the old state:
  - `Drain` for `read_n` and `AwaitAck` for `check_ack`;
  - `Run` over a command's stages for the commands;
  - `WriteFlashAsWritten`/`ScheduleAsWritten` and `ReadPages` for the `doit` loops;
  - `HexDigits` for `itoh`.
  The lemmas in `CommandFacts`, `Stages`, `Images` and `Session` then state what those functions mean in terms of the device's byte stream.
- **Commands.** A command is a list of stages. Each stage sends a checksummed frame (or nothing) and waits for ACK. `Run` stops at the first stage that is not acknowledged, or whose frame raises while being built, and reports that stage's number.
- **Python exceptions.** An argument error raises `struct.error`, `ValueError` or `TypeError`, and `ord('')` raises `TypeError` when a reply is missing. These are modelled as the reply `Raised(e)`, with the frames sent before the exception.
- **Memory image.** The image is a `map<int, byte>` with the `intelhex` operations the loops use: `minaddr`/`maxaddr`, slicing, `del` of a slice, and `tobinstr`, which pads gaps with 0xFF.

Where the code departs from the protocol as it is usually described, the model follows the code:

- ERASE of all pages sends `0xFF` through `sendcksum`, so the frame is `[0xFF, 0x00]`.
- The page lists of ERASE and WRITE_PROTECT use the default checksum seed 0xFF.
- The second stage of ERASE (page-list form), EXTENDED_ERASE, WRITE_PROTECT and WRITE_UNPROTECT is reported as step 3. The last ACK of GO is also step 3. ERASE of all pages reports step 2.
- GET, GET_ID and GET_VERSION return the bytes they read even when the closing ACK is missing (`Unconfirmed`). GET and GET_ID raise `TypeError` when no count byte arrives.
- In the read loop a failed READ_MEMORY stores nothing and the loop goes on. A READ_MEMORY that raises (address or length out of range) ends `doit`.
- The write loop runs while `minaddr() < maxaddr()`, not until the image is empty. `doit` is modelled with this loop (`ScheduleAsWritten`, `WriteImageAsWritten`). Beside it, the loop that runs until nothing is pending (`Schedule`, `WriteImage`) is modelled as the corrected behaviour; see Findings.

## Model

| member | source | states |
|---|---|---|
| Frames.ChecksumIsXorAll | stm32flasher/stm32flash.py:112-114 | `cksum(data, seed)` is the seed XOR the XOR of every payload byte, for every non-empty payload |
| Frames.ReduceIsXorAll | stm32flasher/stm32flash.py:114 | the left fold `reduce(operator.xor, data)` equals the reference XOR of all bytes, `XorAll` |
| Frames.FrameValid | stm32flasher/stm32flash.py:116-120 | a sent frame (payload, then its checksum) XORs to the seed, which is the check the device makes |
| Frames.ChecksumFlip | stm32flasher/stm32flash.py:112-114 | flipping bits in one payload byte flips the same bits of the checksum, so every single-byte corruption changes it |
| Frames.OpcodeFrame | stm32flasher/stm32flash.py:116-120 | an opcode sent with seed 0xFF goes out as the opcode followed by its complement |
| Frames.I2NBytes | stm32flasher/stm32flash.py:54-55 | `i2nbytes(i, n)` exists exactly when `struct.pack('>Q', i)` accepts `i` (0 <= i < 2^64). It is then the last `n` bytes of the 8-byte big-endian encoding, or all 8 when `n` is 0 or at least 8 |
| Frames.BigEndianSuffix | stm32flasher/stm32flash.py:55 | the last `k` bytes of an `n`-byte big-endian encoding are the `k`-byte encoding |
| Frames.BigEndianRoundTrip | stm32flasher/stm32flash.py:54-55 | decoding `n` big-endian bytes of `i` gives `i mod 256^n` |
| Frames.I2NBytesRoundTrip | stm32flasher/stm32flash.py:54-55 | for `1 <= n <= 8` and `0 <= i < 256^n`, `i2nbytes(i, n)` exists and decodes back to `i` |
| Transport.Port.Write | stm32flasher/stm32flash.py:119 | `ser.write` appends the bytes to the sent log and changes nothing else |
| Transport.Port.Select | stm32flasher/stm32flash.py:79-82 | the line is readable exactly when the next poll does not time out; a poll that times out is used up |
| Transport.Port.InWaiting | stm32flasher/stm32flash.py:84 | the bytes waiting are those of a leading `Arrive`, otherwise none |
| Transport.Port.Read | stm32flasher/stm32flash.py:85-88 | a read that raises OSError returns nothing and uses up that poll; otherwise it returns the first `min(n, waiting)` bytes and leaves the rest queued |
| Transport.Port.ReturnFlush | stm32flasher/stm32flash.py:57-62 | `return_flush` counts one flush and changes nothing else |
| Transport.Port.Line | stm32flasher/stm32flash.py:297-321 | each line change or pause of `reset` is appended to the line log; nothing else changes |
| Transport.DrainLength | stm32flasher/stm32flash.py:74-94 | `read_n(ser, k)` returns `min(k, available)` bytes, hence at most `k`. Here "available" means the bytes that arrive before the first poll that times out or fails |
| Transport.DrainConserves | stm32flasher/stm32flash.py:74-94 | the bytes `read_n` returns, followed by the bytes still to come, are the device's whole stream: in order, none lost |
| Transport.DrainAvailable | stm32flasher/stm32flash.py:74-94 | a read that gets all it asked for leaves the remaining available bytes in place |
| Transport.DrainFromSplit | stm32flasher/stm32flash.py:89-94 | the chunks collected so far are a prefix of the result and do not change where the read stops |
| Handshake.ReadN | stm32flasher/stm32flash.py:74-94 | the `while` loop returns exactly the bytes, and leaves exactly the reply queue, that `Drain` defines; only the reply queue changes |
| Handshake.CheckAck | stm32flasher/stm32flash.py:122-135 | `check_ack` reads, classifies and flushes exactly as `AwaitAck` does |
| Handshake.AwaitAckMeaning | stm32flasher/stm32flash.py:122-135 | ACK exactly when the next byte is 0x79, and NACK exactly when it is 0x1F. Any other byte, or none, is 'Not ACK' and costs exactly one flush. Nothing is sent and at most one byte is consumed |
| Handshake.SendCksum | stm32flasher/stm32flash.py:116-120 | `sendcksum` writes exactly the payload followed by `cksum(payload, seed)` and changes nothing else |
| Stages.RunThrough | stm32flasher/stm32flash.py:137-294 | a command's stages all go through exactly when no payload raises and the next reply bytes, one per stage, are all ACK |
| Stages.RunThroughWrites | stm32flasher/stm32flash.py:137-294 | a command that goes through has written every stage's frame in order and touched neither the flush count nor the lines |
| Stages.RunThroughConsumes | stm32flasher/stm32flash.py:137-294 | a command that goes through consumes exactly one reply byte per stage |
| Stages.RunAppend | stm32flasher/stm32flash.py:137-294 | running two lists of stages in turn is running their concatenation; the second runs only if the first went through |
| Stages.RunRefused | stm32flasher/stm32flash.py:137-294 | a refused command reports the number of the refused stage. It has sent the frames of the stages up to and including that one and no later frame, and it never touches the control lines |
| Stages.RunRaised | stm32flasher/stm32flash.py:137-294 | a command that raises does so at the first stage whose payload cannot be built, after sending only the earlier stages' frames |
| Stages.AckedPrefix | stm32flasher/stm32flash.py:137-294 | the stages before the one where a command ended all went through |
| Stages.RunStops | stm32flasher/stm32flash.py:122-135 | a command refused after `k` ACKs saw `k` ACK bytes and then no ACK. The reason is NACK exactly when the next byte is 0x1F, and a flush happened exactly for 'Not ACK' |
| Commands.SendStep | stm32flasher/stm32flash.py:116-135 | a `sendcksum` followed by `check_ack` is one stage of `Run` |
| Commands.AckStep | stm32flasher/stm32flash.py:209-210 | a bare `check_ack` step is a stage that sends nothing |
| Commands.CmdQuery | stm32flasher/stm32flash.py:137-150 | the body shared by `cmd_get` and `cmd_get_id` has exactly the effect of `Query`: opcode, ACK, count byte, count+1 bytes, ACK |
| Commands.CmdGet | stm32flasher/stm32flash.py:137-150 | `cmd_get` is `Query` with opcode 0x00 |
| Commands.CmdGetId | stm32flasher/stm32flash.py:165-178 | `cmd_get_id` is `Query` with opcode 0x02 |
| Commands.CmdGetVersion | stm32flasher/stm32flash.py:152-163 | `cmd_get_version` has exactly the effect of `GetVersion`: opcode, ACK, three bytes, ACK |
| Commands.CmdReadMem | stm32flasher/stm32flash.py:180-196 | `cmd_read_mem` runs its three numbered stages and then `read_n(dsize)`, exactly as `ReadMem` |
| Commands.CmdGo | stm32flasher/stm32flash.py:198-212 | `cmd_go` runs opcode, address and a final bare ACK as stages 1, 2, 3 |
| Commands.CmdWriteMem | stm32flasher/stm32flash.py:214-229 | `cmd_write_mem` runs opcode, address and `(len-1) ++ data` as stages 1, 2, 3 and returns `len(data)` on success |
| Commands.CmdErase | stm32flasher/stm32flash.py:231-248 | `cmd_erase` runs the opcode, then `0xFF` (step 2) or the page list (step 3) |
| Commands.CmdExtendedErase | stm32flasher/stm32flash.py:250-271 | `cmd_extended_erase` runs the opcode, then the special code or the word list, as step 3 |
| Commands.CmdWriteProtect | stm32flasher/stm32flash.py:273-284 | `cmd_write_protect` runs the opcode, then the page list as step 3 |
| Commands.CmdWriteUnprotect | stm32flasher/stm32flash.py:286-294 | `cmd_write_unprotect` runs the opcode, then a bare ACK as step 3 |
| CommandFacts.BlockRoundTrip | stm32flasher/stm32flash.py:224 | `chr(len(data)-1) + data` can be built exactly for 1 to 256 bytes (otherwise ValueError), and the device can read the data back from it |
| CommandFacts.UnblockBlock | stm32flasher/stm32flash.py:224 | every block the device can parse is the encoding of the data it parses to |
| CommandFacts.CharsValues | stm32flasher/stm32flash.py:243 | each encoded page byte is the page number |
| CommandFacts.PageBytesRoundTrip | stm32flasher/stm32flash.py:243-244 | a page list is encoded for ERASE and WRITE_PROTECT exactly when it has 1 to 256 pages, each 0..255, and then decodes back to the list. An integer argument raises TypeError and a bad list raises ValueError |
| CommandFacts.WordsRoundTrip | stm32flasher/stm32flash.py:266-267 | words packed with `'>H'` decode back to the words |
| CommandFacts.PageWordsRoundTrip | stm32flasher/stm32flash.py:256-267 | EXTENDED_ERASE encodes a special code exactly for 0xFFF0..0xFFFF (otherwise TypeError), as that one word. It encodes a page list exactly for 1 to 65536 pages, each a 16-bit word (otherwise struct.error), as a count and the pages, which decode back |
| CommandFacts.PageListWords | stm32flasher/stm32flash.py:264-267 | the count word `len-1` fits exactly when the list has 1 to 65536 pages; the packed list decodes back to the pages |
| CommandFacts.PageCodeWord | stm32flasher/stm32flash.py:256-258 | a special code packs to the two bytes that decode back to it |
| CommandFacts.DrainPrefix | stm32flasher/stm32flash.py:74-94 | a bounded read returns the next bytes of the stream and leaves the rest |
| CommandFacts.AnswerMeaning | stm32flasher/stm32flash.py:143-150 | a reply of `want` bytes is the next `min(want, available)` bytes of the stream. It is confirmed exactly when the byte after a complete reply is ACK |
| CommandFacts.OpcodeAcked | stm32flasher/stm32flash.py:139-141 | an acknowledged opcode stage sends `[op, 255-op]` and consumes one ACK |
| CommandFacts.ListingRaises | stm32flasher/stm32flash.py:143-144 | GET/GET_ID's `ord(nbytes)` raises TypeError exactly when no count byte arrives |
| CommandFacts.ListingAnswer | stm32flasher/stm32flash.py:143-145 | after the count byte `n`, a listing is a reply of `n + 1` bytes |
| CommandFacts.QueryRefused | stm32flasher/stm32flash.py:137-150 | GET and GET_ID report `(False, reason)` exactly when the first reply byte is not ACK, and raise exactly when that ACK is the only byte that arrives |
| CommandFacts.AnswerComplete | stm32flasher/stm32flash.py:158-163 | a reply of `want` bytes followed by ACK is returned whole and consumed exactly |
| CommandFacts.ListingComplete | stm32flasher/stm32flash.py:143-150 | a count `N` followed by `N + 1` bytes and ACK yields exactly those bytes and consumes exactly that reply |
| CommandFacts.ListingCount | stm32flasher/stm32flash.py:143-150 | the same, for a given count byte |
| CommandFacts.GetVersionMeaning | stm32flasher/stm32flash.py:152-163 | GET_VERSION reports `(False, reason)` exactly when the first byte is not ACK. After the ACK it has sent `[0x01, 0xFE]` and reads a three-byte reply |
| CommandFacts.NumberedRefusal | stm32flasher/stm32flash.py:180-229 | a command with stages numbered 1, 2, 3 that is refused at step `n` saw `n-1` ACKs and sent the frames of steps 1..n only; the reason is NACK exactly when the `n`th byte is 0x1F |
| CommandFacts.ThreeStepRefusal | stm32flasher/stm32flash.py:180-229 | the same, for the reply of a three-step command |
| CommandFacts.RaisedAfterAcks | stm32flasher/stm32flash.py:137-294 | a command that raises was acknowledged for every stage before the one that raised |
| CommandFacts.WriteMemFrames | stm32flasher/stm32flash.py:214-229 | WRITE_MEMORY raises nothing exactly when the address fits 64 bits and the data has 1..256 bytes. It then sends `[0x31, 0xCE]`, the 4-byte address with seed 0x00, and `(len-1) ++ data` with seed 0x00 |
| CommandFacts.WriteMemSucceeds | stm32flasher/stm32flash.py:214-229 | WRITE_MEMORY returns `len(data)` exactly when the arguments are valid and three ACKs arrive. It then sent exactly those frames and consumed three bytes |
| CommandFacts.WriteMemRaises | stm32flasher/stm32flash.py:220-225 | WRITE_MEMORY raises struct.error for an address out of range (after one ACK) or ValueError for a bad length (after two) |
| CommandFacts.WriteMemRefused | stm32flasher/stm32flash.py:214-229 | a refused WRITE_MEMORY reports step 1, 2 or 3, saw one fewer ACK than the step, and sent no later frame |
| CommandFacts.ReadMemFrames | stm32flasher/stm32flash.py:180-196 | READ_MEMORY raises nothing exactly when the address and `dsize-1` fit 64 bits. It sends `[0x11, 0xEE]`, the address with seed 0x00, and the last byte of `dsize-1` with seed 0xFF |
| CommandFacts.ReadMemSucceeds | stm32flasher/stm32flash.py:180-196 | READ_MEMORY returns data exactly when the arguments are valid and three ACKs arrive. The data is the next `min(dsize, available)` bytes after them |
| CommandFacts.ReadAfterAcks | stm32flasher/stm32flash.py:194 | the bytes read after the three ACKs are the stream from position 3 on |
| CommandFacts.ReadMemRaises | stm32flasher/stm32flash.py:186-190 | READ_MEMORY raises only struct.error: after one ACK for a bad address, or after two for a bad length |
| CommandFacts.ReadMemRefused | stm32flasher/stm32flash.py:180-196 | a refused READ_MEMORY reports step 1, 2 or 3 and sent only the frames up to it |
| CommandFacts.GoFrames | stm32flasher/stm32flash.py:198-212 | GO raises nothing exactly when the address fits, and then sends `[0x21, 0xDE]` and the address frame |
| CommandFacts.GoSucceeds | stm32flasher/stm32flash.py:198-212 | GO succeeds exactly when the address fits and three ACKs arrive |
| CommandFacts.GoRaises | stm32flasher/stm32flash.py:204 | GO raises struct.error only for an address out of range, after one ACK |
| CommandFacts.GoRefused | stm32flasher/stm32flash.py:198-212 | a refused GO reports step 1, 2 or 3 and sent only the frames up to it |
| CommandFacts.TwoStepRefusal | stm32flasher/stm32flash.py:231-294 | a two-stage command refused at its second stage has sent both frames after one ACK; refused at step 1 it has sent the opcode only |
| CommandFacts.EraseFrames | stm32flasher/stm32flash.py:231-248 | ERASE of 255 sends `[0x43, 0xBC, 0xFF, 0x00]`; ERASE of a valid page list sends the opcode and the list with seed 0xFF |
| CommandFacts.EraseSucceeds | stm32flasher/stm32flash.py:231-248 | ERASE succeeds exactly when its argument encodes and two ACKs arrive |
| CommandFacts.EraseRaises | stm32flasher/stm32flash.py:243-244 | ERASE raises only when the page list does not encode, after the opcode's ACK |
| CommandFacts.EraseRefused | stm32flasher/stm32flash.py:231-248 | a refused ERASE reports step 1, or step 2 for the 255 form and step 3 for a page list |
| CommandFacts.FullEraseFrame | stm32flasher/stm32flash.py:258 | the special code 0xFFFF goes out as `[0xFF, 0xFF, 0x00]` |
| CommandFacts.ExtendedEraseFrames | stm32flasher/stm32flash.py:250-271 | EXTENDED_ERASE raises nothing exactly when its argument encodes. It sends `[0x44, 0xBB]` and the encoding with seed 0x00, which is `[0x44, 0xBB, 0xFF, 0xFF, 0x00]` for 0xFFFF |
| CommandFacts.ExtendedEraseSucceeds | stm32flasher/stm32flash.py:250-271 | EXTENDED_ERASE succeeds exactly when its argument encodes and two ACKs arrive |
| CommandFacts.ExtendedEraseRaises | stm32flasher/stm32flash.py:256-266 | EXTENDED_ERASE raises only when its argument does not encode, after the opcode's ACK |
| CommandFacts.ExtendedEraseRefused | stm32flasher/stm32flash.py:250-271 | a refused EXTENDED_ERASE reports step 1 or step 3 |
| CommandFacts.WriteProtectFrames | stm32flasher/stm32flash.py:273-284 | WRITE_PROTECT sends `[0x63, 0x9C]` and the page list with seed 0xFF, and raises exactly when the list does not encode |
| CommandFacts.WriteProtectSucceeds | stm32flasher/stm32flash.py:273-284 | WRITE_PROTECT succeeds exactly when the list encodes and two ACKs arrive |
| CommandFacts.WriteProtectRaises | stm32flasher/stm32flash.py:279-280 | WRITE_PROTECT raises only when the page list does not encode, after one ACK |
| CommandFacts.WriteProtectRefused | stm32flasher/stm32flash.py:273-284 | a refused WRITE_PROTECT reports step 1 or step 3 |
| CommandFacts.WriteUnprotectSucceeds | stm32flasher/stm32flash.py:286-294 | WRITE_UNPROTECT never raises, and succeeds exactly when two ACKs arrive after `[0x73, 0x8C]` |
| CommandFacts.WriteUnprotectRefused | stm32flasher/stm32flash.py:286-294 | a refused WRITE_UNPROTECT reports step 1 or step 3 and has sent only its opcode frame |
| Images.MinKey | stm32flasher/stm32flash.py:387-388 | `minaddr()` of a non-empty image is an address it holds, and no lower one is held |
| Images.MaxKey | stm32flasher/stm32flash.py:387 | `maxaddr()` of a non-empty image is an address it holds, and no higher one is held |
| Images.Lowest | stm32flasher/stm32flash.py:388 | the scan for the lowest address finds `minaddr()` |
| Images.Highest | stm32flasher/stm32flash.py:390 | the scan for the highest address finds `maxaddr()` |
| Images.Slice | stm32flasher/stm32flash.py:390 | `i2[a1:a2]` holds exactly the addresses of `i2` in `[a1, a2)` |
| Images.Without | stm32flasher/stm32flash.py:391 | `del i2[a1:a2]` leaves exactly the addresses outside `[a1, a2)` |
| Images.ToBin | stm32flasher/stm32flash.py:390 | `tobinstr()` has one byte per address from the lowest to the highest, 0xFF in the gaps |
| Images.Chunk | stm32flasher/stm32flash.py:388-390 | a pass writes from the lowest pending address, between 1 and 256 bytes |
| Images.NextChunk | stm32flasher/stm32flash.py:388-391 | the loop body's slicing computes the chunk and the pending image that `Chunk` and `Rest` define |
| Images.RestShrinks | stm32flasher/stm32flash.py:391 | deleting the chunk's range strictly shrinks the pending image, so the loop ends |
| Images.ChunkShape | stm32flasher/stm32flash.py:388-391 | the chunk holds the image's bytes from its start, with 0xFF in gaps. Every pending address is inside the chunk or at least 256 past its start, and exactly those 256 past remain pending |
| Images.ScheduleWrites | stm32flasher/stm32flash.py:387-404 | a write loop that runs until nothing is pending writes every byte of the image at its own address, and writes only 0xFF at addresses the image does not hold |
| Images.ScheduleChunks | stm32flasher/stm32flash.py:387-391 | every chunk has 1 to 256 bytes, and the chunks come in increasing address order without overlapping |
| Images.LoneAddress | stm32flasher/stm32flash.py:387 | with one address pending, the corrected loop writes it as a one-byte chunk and the loop as written stops |
| Images.AsWrittenDropsLoneLast | stm32flasher/stm32flash.py:387 | the loop as written writes every chunk of the corrected loop, except that it drops a final chunk of exactly one byte |
| Images.MorePending | stm32flasher/stm32flash.py:387 | the loop condition as written holds exactly when the pending image is non-empty and its lowest address is below its highest |
| Images.AsWrittenWrites | stm32flasher/stm32flash.py:387-404 | the loop as written writes every byte of the image at its own address, except possibly the byte of a dropped final one-byte chunk, and writes only 0xFF at addresses the image does not hold |
| Images.LoneByteNeverWritten | stm32flasher/stm32flash.py:387 | the loop as written writes nothing for a one-byte image, which the corrected loop writes |
| Session.Reset | stm32flasher/stm32flash.py:297-321 | `reset` logs its line changes and pauses in order and changes nothing else on the port |
| Session.BootloaderPulse | stm32flasher/stm32flash.py:298-308 | the bootloader branch of `reset` logs, in order: BREAK on, 200 ms, RTS on, DTR on, 50 ms, BREAK off, 50 ms, RTS off, 50 ms, DTR off; nothing else on the port changes |
| Session.ApplicationPulse | stm32flasher/stm32flash.py:309-319 | the application branch of `reset` logs, in order: RTS, DTR and BREAK off, RTS on, 50 ms, RTS off, 50 ms, BREAK on, 200 ms, BREAK off; nothing else on the port changes |
| Session.ResetReleases | stm32flasher/stm32flash.py:297-321 | whatever the levels before, either reset ends with BREAK, RTS and DTR all released |
| Session.ResetSplits | stm32flasher/stm32flash.py:297-321 | a reset is its head, then the RTS release that ends its pulse, then a tail that never asserts RTS again. The bootloader reset releases RTS only at that point |
| Session.ResetPulse | stm32flasher/stm32flash.py:297-321 | when RTS (the target's reset) is released, it had been asserted, and DTR (BOOT0) is asserted exactly for a reset into the bootloader |
| Session.ChunkStepPasses | stm32flasher/stm32flash.py:393-404 | a pass of the write loop goes on exactly when WRITE_MEMORY returned the chunk's length and READ_MEMORY of that length returned the very bytes written |
| Session.ChunkStepFailure | stm32flasher/stm32flash.py:393-404 | a failing pass names its own chunk's address, unless it raised |
| Session.WriteChunksStops | stm32flasher/stm32flash.py:387-404 | the loop stops at the first failing chunk. It ends successfully exactly when every chunk passed, and a failure names the address of the first chunk that did not pass |
| Session.FlashVerified | stm32flasher/stm32flash.py:382-404 | the chunks a write operation verified are a prefix of its writes, and all of them when it succeeds |
| Session.FlashedAsWritten | stm32flasher/stm32flash.py:382-404 | with the loop as written, a successful write verified every chunk of `ScheduleAsWritten`: each image byte was written and read back at its address, except possibly that of a dropped final one-byte chunk, and gaps hold only 0xFF |
| Session.FlashedImage | stm32flasher/stm32flash.py:382-404 | with the corrected loop, the verified chunks are a prefix of the writes. A successful write verified all of them, so every image byte was written and read back at its address, and gaps hold only 0xFF |
| Session.WriteChunk | stm32flasher/stm32flash.py:393-404 | the loop body (write, read back, compare) has exactly the effect of `ChunkStep` |
| Session.EraseForWrite | stm32flasher/stm32flash.py:382-385 | the mass erase before writing stops the operation when EXTENDED_ERASE raises or is refused, and lets it go on otherwise, as `EraseStep` defines |
| Session.WriteImageAsWritten | stm32flasher/stm32flash.py:382-404 | the write operation of `doit`: the mass erase, then the loop `while minaddr() < maxaddr()` over the image's chunks, stopping at the first failure, as `WriteFlashAsWritten` defines |
| Session.WriteImage | stm32flasher/stm32flash.py:382-404 | the corrected write operation: the mass erase, then a loop that runs until nothing is pending, stopping at the first failure, as `WriteFlash` defines |
| Session.Store | stm32flasher/stm32flash.py:370 | `i1[a:a+len(d)] = d` sets exactly the addresses `a..a+len(d)-1` to the bytes of `d` and keeps every other address |
| Session.ReadMemAtMost | stm32flasher/stm32flash.py:194 | READ_MEMORY of `dsize` bytes returns at most `dsize` bytes |
| Session.PageReadShort | stm32flasher/stm32flash.py:363 | a page read stores at most 256 bytes |
| Session.ReadPagesWithin | stm32flasher/stm32flash.py:362-370 | the read loop over `n` pages stores only inside `[a, a + 256n)` and keeps what was held outside it |
| Session.ReadFlashWithin | stm32flasher/stm32flash.py:356-370 | a dump of `npages` KiB from `a0` holds only addresses in `[a0, a0 + npages*1024)` |
| Session.DumpReplies | stm32flasher/stm32flash.py:362-370 | the read loop over `n` pages completes exactly when it made `n` page reads and none raised. Otherwise its last read raised, and that exception ends it |
| Session.DumpPage | stm32flasher/stm32flash.py:362-370 | in a completed dump, byte `i` of page `j` holds byte `i` of that page's reply when the reply carries it, and otherwise what was held there before the loop |
| Session.ReadFlashContents | stm32flasher/stm32flash.py:356-370 | a completed dump of `npages` KiB made `4*npages` page reads, none raising. Each address `a0 + 256j + i` holds byte `i` of read `j`'s reply when that reply has one, and is absent otherwise |
| Session.ReadPage | stm32flasher/stm32flash.py:363-370 | one pass of the loop body is one step of `ReadPages` |
| Session.DumpFlash | stm32flasher/stm32flash.py:359-370 | the read loop's result and port state are those `ReadPages` defines |
| Session.EnterAndIdentify | stm32flasher/stm32flash.py:340-354 | the start of `doit` (reset into the bootloader, 0x7F and a one-byte read, GET, GET_VERSION, GET_ID) has exactly the effect of `Identify(Enter(...))` |
| Session.ReadOperation | stm32flasher/stm32flash.py:356-372 | `-r` is the read loop over `[a0, a0 + npages*1024)`, then the final reset unless it raised |
| Session.WriteOperation | stm32flasher/stm32flash.py:374-406 | `-w` is the write operation with the loop as written. A failure returns 1 before the final reset, and success ends with it |
| Session.Perform | stm32flasher/stm32flash.py:359-406 | `-r` runs the read loop, `-w` the write with its loop as written, and neither does nothing; then the final reset when the operation completed |
| Session.Doit | stm32flasher/stm32flash.py:340-408 | `doit` on an opened port has exactly the effect of `Session` |
| Session.IdentifyKeepsLines | stm32flasher/stm32flash.py:346-354 | GET, GET_VERSION and GET_ID leave the control lines alone |
| Session.OperateLines | stm32flasher/stm32flash.py:359-406 | the operation changes the control lines only by the final reset, and makes it exactly when it completes |
| Session.SessionLines | stm32flasher/stm32flash.py:340-406 | `doit` changes the control lines only through its resets: the one into the bootloader, and the one back to the application exactly when the operation completes. Either way all three lines end released |
| Hex.Itoh | Hello-world/hello-world.c:25-36 | `itoh(buf, x)` writes the 8 hex digits of `x` and a NUL into `buf[0..9)`, returns `buf`, and leaves the rest of `buf` alone |
| Hex.HexDigitsAt | Hello-world/hello-world.c:31-33 | character `j` is the digit of nibble `7 - j`: most significant first |
| Hex.HexDigitsAlphabet | Hello-world/hello-world.c:23 | every character written is one of `0123456789abcdef` |
| Hex.DigitRoundTrip | Hello-world/hello-world.c:23 | each digit of `digit_to_hex` reads back as its nibble value |
| Hex.HexRoundTrip | Hello-world/hello-world.c:31-33 | reading the `n` digits back as base 16 gives `x mod 16^n`, which for 8 digits is `x` |
| Hex.HexSuffix | Hello-world/hello-world.c:88 | the last `k` of the `n` digits are the `k`-digit encoding |
| Hex.HexMod | Hello-world/hello-world.c:88 | the `k`-digit encoding depends only on `x mod 16^k` |
| Hex.NoNul | Hello-world/hello-world.c:34 | no digit is NUL, so the terminator written after them is the first NUL |
| Hex.CStringAt | Hello-world/hello-world.c:69 | the C string at `buf + from` is the characters from `from` up to the NUL |
| Hex.ItohSuffix | Hello-world/hello-world.c:88 | `itoh(buf, x) + (8 - ndigits)` is the `ndigits`-digit encoding of `x`, which reads back as `x mod 16^ndigits` |
| Hex.PrintUint | Hello-world/hello-world.c:83-89 | `print_uint` sends exactly the last `ndigits` digits of `x` |
| Hex.PrintCpuInfo | Hello-world/hello-world.c:59-80 | `print_cpu_info` sends three `UID i: ` lines, each with the index as 1 digit (`+7`) and the word as 8 digits, then `MEMSIZE ` and 4 digits (`+4`) |

## Left out

- Serial hardware: opening, closing and configuring the port, and the real `select`/`inWaiting`/`read`/`write` calls. They are replaced by the scripted `Port`.
- `flushInput`, `flushOutput` and `flush` are modelled only as a count (`return_flush`) or a logged event (`reset`). Discarding bytes already queued is not modelled: the reply script goes on where it was.
- Time: `time.sleep` in `reset` is logged as a `Sleep` event. The 100 ms pause of `return_flush` and the 2 s `select` timeout are not modelled beyond the `Silence` outcome.
- The `intelhex` library: reading and writing HEX files (`loadfile`, `tofile`), the file named by `-r`/`-w`, and the HEX format itself. The image arrives at `doit` as a map and the dump leaves it as a map.
- Status output to `fout`/`ferr`, including the optional trace in `sendcksum`, and the printing of the GET, GET_VERSION and GET_ID replies. These print nothing the protocol depends on.
- Command-line parsing, `usage` and `main`. `doit` takes the operation, address and page count as an `Op`.
- Arguments of other Python types than an integer or a list of integers (for example a string page list) are not modelled.
- An empty payload to `sendcksum`, where `reduce` raises TypeError, is excluded by a precondition. No command can build one, because `chr(-1)` raises first.
- Session.DumpFlash: does not model the OverflowError that Python 2's `xrange` raises at stm32flasher/stm32flash.py:362 when `a0` or `a0 + npages*1024` lies outside the range of a C long. That range depends on the platform: [-2^63, 2^63) on 64-bit Linux, 32 bits on Windows. Outside it the source raises before sending any READ_MEMORY, but the model reads pages. Only the 64-bit `struct.pack` bound of each page address is modelled.
- Session.ReadOperation: inherits the unmodelled `xrange` bound of `Session.DumpFlash`, and so do `Session.Perform` and `Session.Doit`. For a start or end address outside the C long range, the source ends `doit` with OverflowError before the final reset, while the model performs the dump.
- Hex.PrintUint: requires `0 <= ndigits <= 8`. Outside that range `itoh(buf, x) + (8 - ndigits)` at Hello-world/hello-world.c:88 points outside `buf`, which is undefined behaviour in C, so the model gives it no meaning.
- `CMD_RDPROTECT` and `CMD_RDUNPROTECT` are declared in the source but no command uses them.
- In `Hello-world/hello-world.c`, everything except `itoh` and its suffix uses is out of scope: register programming, `delay1`, `uart_idle`, `main`, `write_flash`, and `uart.c`/`uart.h`. `UNIQUE_ID` and `MEMSIZE` are hardware reads; they become parameters of `Hex.PrintCpuInfo`. `uart_send_str` becomes the list of strings returned.

## Findings

| source | as written | input that shows it | evidently intended | confidence | as-written member | corrected member |
|---|---|---|---|---|---|---|
| stm32flasher/stm32flash.py:387 | the write loop runs only while `minaddr() < maxaddr()`, so it stops as soon as a single address is pending and never writes that byte | the one-byte image `{0: b}`: nothing is written (`ScheduleAsWritten(map[0 := b]) == []`). In general a final chunk of one byte is dropped | loop until nothing is pending, writing `[(0, [b])]` | not executed | Images.LoneByteNeverWritten | Session.WriteImage |
