# RTCM bridge: a verified model

The repository moves RTCM 3 correction data between NTRIP casters and NATS and decodes it. This project models its algorithms in Dafny and proves what they promise, for every input and every run.

* **Framing.** A byte stream arrives in arbitrary pieces. The framer looks for the preamble 0xD3, reads a ten-bit length, compares a CRC-24Q, hands the payload on or moves one byte further. `Framing` holds the framer class and the pure greedy scan it refines; `FramingLaws` shows that fragmentation makes no difference, what exactly the scan accepts, and that no byte is lost.
* **Checksum.** `Gf2` is division of polynomials over GF(2); `Crc24q` proves the register loop against it; `ErrorDetection`, `PowersOfX` and `TwoBitErrors` derive which damage to a frame is always noticed.
* **Messages.** `BitReading` is the bit cursor, `FieldGroups` sequences and repetitions of bit fields, `MsmFormat` the layout of Multiple Signal Messages, `Msm` their decoder with its loops, `MsmPositions` where every value stands in numbers, `MsmLaws` its structure, exact length criterion and round trip, `MsmReport` the printing loop, `MsmFieldOrder` what happens to messages laid out field by field.
* **Connections.** `ResponseHeader` models both clients that look for the end of a response header, `HeaderText` says in characters which headers they accept, `EndToEnd` composes header, framer and decoder, `HeldBytes` and `Reconnects` say what leftover bytes do to the next connection. `Backoff` is the doubling of delays.
* **Upload.** `StreamSession` is the queue between the NATS callback and the worker of the NATS-to-NTRIP bridge, as a transition system over all interleavings and as the object whose methods are its steps; `UploadWorker` is the worker's control flow over them, `WorkerScript` what it does as a function of what happens to it, `WorkerProgress` how much it delivers, `WorkerStops` that a request to stop ends it, `UploadWaits` the int arithmetic of its waits and `Stopping` how a stop ends it. `ChunkedUpload` is the chunked transfer coding, `UploadEndToEnd` what the caster receives in any run. `Base64` is the credential encoder.
* **Configuration.** `IntText`, `ConfigLines`, `TextLines`, `ConfigFile`, `ConfigRoundTrip` and `ConfigRewrite` model the configuration file of the NTRIP-to-NATS bridge; `ConfigText` and `ConfigErrors` say in its own names and characters what each line does and which are refused.

`Bits`, `Search` and `MachineInt` are shared vocabulary. Both decoder programs contain the same checksum, cursor, framer and MSM decoder; one model serves both.

## Findings

* The framer's cut at one mebibyte never takes effect: what is left after a scan is at most 1028 bytes (`Framing.PendingIsShort`).
* The final mask of the checksum never changes anything (`Crc24q.MaskIsIdle`).
* The decoder reads MSM satellite by satellite and cell by cell. For messages laid out field by field the total length is the same, so they always decode, but for given masks all of them are read right exactly when there is at most one satellite and at most one cell (`MsmFieldOrder.ReadRightExactly`; `MsmFieldOrder.TwoSatellitesMisread` is one that is misread).
* The decoder client does not reset its framer, so a connection is not decoded on its own: over all connections the framer sees one stream (`EndToEnd.OneStreamAcrossReconnects`). What the next connection delivers is, whatever it brings, what a fresh framer would deliver exactly when no byte left over may still begin a frame, that is, there is no preamble among them whose payload is still incomplete or just complete, or whose checksum bytes are right as far as they have come (`Reconnects.NextConnectionExactly`, `HeldBytes.LeftoverMattersExactly`). `Reconnects.SpliceExample` is an input where it differs: a frame is delivered that neither connection brought, as for any frame cut in two (`Reconnects.SplicedFrame`).
* A successful connection resets the delay of the decoder client, but neither that of the bridge's client nor that of an upload session; the session's reset after streaming is reached only when it is stopping (`StreamSession.WaitsDouble`; `UploadWaits.SuccessKeepsTheDelay` is a run whose second wait, after a connection that was made and broke, is twice the first).
* The documented configuration example sets `connection_header`, which the parser refuses (`ConfigRoundTrip.DocumentedExampleIsRefused`, and exactly which lines are refused in this way `ConfigRoundTrip.UnknownKeyExactly`); the model follows the code. A NATS server line with an empty host name is accepted (`ConfigLines.EmptyHostIsAccepted`, and exactly which lines are `ConfigLines.NatsExactly`).
* The int arithmetic of the waits overflows for large accepted maxima (`UploadWaits.RunsFitExactly`).
* `throughput_log_kb` is multiplied in 32 bits and is kept exactly only while the product fits an int (`ConfigFile.WrapKeepsKilobytes`).

## Model

| member | source | states |
|---|---|---|
| Framing.RtcmStreamFramer.constructor | src/rtcm_decoder_ntrip.cpp:804-807 | A new framer holds nothing and has counted nothing. |
| Framing.RtcmStreamFramer.Push | src/rtcm_decoder_ntrip.cpp:750-786 | Buffer, both counters and the payloads handed on are those of one greedy scan over what was held and what arrived; what is held stays within 1028 bytes. |
| Framing.RtcmStreamFramer.ScanBuffer | src/rtcm_decoder_ntrip.cpp:755-780 | The loop stops where the undecided rest begins, with counters and payloads advanced by exactly the items before it; it always ends. |
| Framing.CheckCrc | src/rtcm_decoder_ntrip.cpp:765-771 | The comparison of stored and computed checksum succeeds exactly when the frame at the head is valid. |
| Framing.PendingIsShort | src/rtcm_decoder_ntrip.cpp:782-785 | What a scan leaves over is at most 1028 bytes, so the cut at one mebibyte never happens. |
| FramingLaws.ChunkingIndependence | src/rtcm_decoder_ntrip.cpp:750-786 | However a stream is divided into pushes, payloads, counters and buffer end up as after one single push. |
| FramingLaws.GreedySpecification | src/rtcm_decoder_ntrip.cpp:755-780 | The scan is the one and only division of the stream into skipped bytes, preambles with a wrong checksum, valid frames and an undecided rest. |
| FramingLaws.Conservation | src/rtcm_decoder_ntrip.cpp:755-785 | Bytes pushed equal accepted frame bytes plus skipped bytes plus bad checksums plus bytes held. |
| FramingLaws.NoFrameMissed | src/rtcm_decoder_ntrip.cpp:756-779 | A valid frame in the decided part is passed over only if it begins inside an accepted one. |
| FramingLaws.EncodedFrameIsValid | src/rtcm_decoder_ntrip.cpp:760-771 | A frame built from preamble, any reserved bits, length, payload and checksum is valid and carries that payload. |
| FramingLaws.FrameRoundTrip | src/rtcm_decoder_nats.cpp:738-774 | Any sequence of payloads of at most 1023 bytes, framed and mixed with preamble-free filler, is delivered complete and in order under any fragmentation, without checksum errors or leftover. |
| Crc24q.Compute | src/rtcm_decoder_ntrip.cpp:64-76 | The register stays below 2^24 after every bit and ends as the remainder of the data, shifted by 24 bits, under division by the generator. |
| Crc24q.MaskIsIdle | src/rtcm_decoder_ntrip.cpp:75 | The final mask changes nothing. |
| Crc24q.TurnBits | src/rtcm_decoder_nats.cpp:45-48 | Shifting and conditionally adding the generator stays below 2^24 and is multiplication by x modulo the generator. |
| Crc24q.ComparisonOfBits | src/rtcm_decoder_ntrip.cpp:765-771 | Comparing the assembled 24-bit number with the register is comparing the stored bits with the remainder. |
| Crc24q.CheckIsZeroRemainder | src/rtcm_decoder_ntrip.cpp:765-771 | The stored checksum is right exactly when the whole frame, checksum included, has remainder zero. |
| Gf2.RemainderTheorem | src/rtcm_decoder_ntrip.cpp:64-76 | The remainder computed bit by bit is the only polynomial of lower degree that differs from the dividend by a multiple of the generator. |
| Gf2.RegisterIsPaddedRem | src/rtcm_decoder_ntrip.cpp:67-74 | A register fed at its top ends with the remainder of the data followed by 24 zeros. |
| Gf2.RemLinear | src/rtcm_decoder_ntrip.cpp:64-76 | The remainder of a sum of equally long inputs is the sum of their remainders. |
| ErrorDetection.CorruptionIsError | src/rtcm_decoder_ntrip.cpp:765-771 | A damaged frame still passes exactly when the flipped bits are themselves divisible by the generator. |
| ErrorDetection.DamagedFrameIsRejected | src/rtcm_decoder_ntrip.cpp:765-779 | With preamble and length intact, any burst of up to 24 bits and any odd number of flips is counted as a bad checksum at that position, nothing is delivered there, and scanning goes on one byte further. |
| ErrorDetection.CrcPolyIsEven | src/rtcm_decoder_ntrip.cpp:66 | The generator has an even number of terms, so every multiple of it has. |
| TwoBitErrors.CyclesExactly | src/rtcm_decoder_ntrip.cpp:66 | A power of x is 1 modulo the generator exactly when its exponent is a multiple of 2^23 - 1. |
| TwoBitErrors.TwoFlipsExactly | src/rtcm_decoder_ntrip.cpp:64-76 | In data of any length, two flipped bits go unnoticed exactly when they are a multiple of 2^23 - 1 apart. |
| TwoBitErrors.TwoFlipsAreRejected | src/rtcm_decoder_ntrip.cpp:765-779 | Within a frame no two bits are that far apart: any two flipped bits are counted as a bad checksum at that position. |
| BitReading.BitReader.constructor | src/rtcm_decoder_ntrip.cpp:83-84 | A new reader has all bits of the data before it. |
| BitReading.BitReader.GetU | src/rtcm_decoder_ntrip.cpp:89-101 | Succeeds exactly for widths up to 64 that are available, yields the value of those bits and moves past them; otherwise output and cursor stay. |
| BitReading.BitReader.GetS | src/rtcm_decoder_ntrip.cpp:106-119 | As GetU, with the two's-complement number of the bits. |
| BitReading.BitReader.Skip | src/rtcm_decoder_ntrip.cpp:124-128 | Moves on exactly when enough bits remain, and otherwise not at all. |
| BitReading.TwosComplement | src/rtcm_decoder_ntrip.cpp:113-117 | The signed result is the only number in n-bit range congruent to the bits modulo 2^n. |
| BitReading.SignedRoundTrip | src/rtcm_decoder_ntrip.cpp:106-119 | Every number in n-bit range survives being written as n bits and read as signed. |
| BitReading.ValueAppend | src/rtcm_decoder_ntrip.cpp:92-97 | Reading a and then b bits is reading a + b bits, split. |
| Bits.ValueOfToBits | src/rtcm_decoder_ntrip.cpp:92-97 | A number written as n bits, most significant first, is read back. |
| Bits.ToBitsOfValue | src/rtcm_decoder_ntrip.cpp:92-97 | Bits read as a number and written again are the same bits. |
| FieldGroups.FieldsRoundTrip | src/rtcm_decoder_nats.cpp:53-107 | Reading packed fields of any widths with the same widths returns their values and leaves what follows. |
| FieldGroups.FieldsInverse | src/rtcm_decoder_nats.cpp:53-107 | Whatever was read packs to exactly the bits it was read from. |
| FieldGroups.GroupsRoundTrip | src/rtcm_decoder_ntrip.cpp:589-614 | Repeated groups of fields, packed one after the other, are read back. |
| FieldGroups.GroupsByLength | src/rtcm_decoder_ntrip.cpp:589-614 | Groups are read exactly when there are bits for all of them; otherwise the error is that of the first field that does not fit. |
| Msm.ReadHeader | src/rtcm_decoder_ntrip.cpp:548-556 | Reads the eleven header fields, and fails exactly when one is missing. |
| Msm.CollectIds | src/rtcm_decoder_ntrip.cpp:562-572 | The loop over a mask collects its identifiers. |
| Msm.ReadCellMask | src/rtcm_decoder_ntrip.cpp:574-584 | Reads one bit per satellite and signal and counts those set. |
| Msm.ReadSatellites | src/rtcm_decoder_ntrip.cpp:586-614 | Reads the satellite blocks, or fails with the tag of the field that is missing. |
| Msm.ReadCells | src/rtcm_decoder_ntrip.cpp:625-679 | The nested loops read one cell per set mask bit, each with its satellite and signal index, every access in range. |
| Msm.DecodeMsm | src/rtcm_decoder_ntrip.cpp:539-690 | The result is that of the pure parse of the remaining bits, for every type and every input; after a success the cursor stands exactly behind the 157 header bits and the mask, satellite and cell bits of the reported sizes. |
| Msm.DecodeBody | src/rtcm_decoder_ntrip.cpp:558-690 | The same for what follows the header. |
| Msm.Decode | src/rtcm_decoder_ntrip.cpp:180-205 | Dispatches on the first twelve bits of a payload of at least two bytes. |
| MsmFormat.IdsAreSetPositions | src/rtcm_decoder_ntrip.cpp:558-572 | The identifiers are exactly the set positions of the mask, strictly increasing, as many as its popcount. |
| MsmFormat.BlocksConsume | src/rtcm_decoder_ntrip.cpp:574-679 | Reading mask, satellites and cells takes up exactly the sum of their widths. |
| MsmPositions.TypesByNumbers | src/rtcm_decoder_ntrip.cpp:539-690 | Which message types are decoded, and for each of MSM4 to MSM7, in numbers: the bit position and width of every value reported, satellites and signals of the set mask bits, a cell for exactly the set cell bits, how long the message must be, and which error a shorter one gives. |
| MsmPositions.DispatchByNumbers | src/rtcm_decoder_ntrip.cpp:180-205 | A payload below two bytes is too short; of any other the first twelve bits are the type. |
| MsmLaws.DecodedIsWellStructured | src/rtcm_decoder_ntrip.cpp:558-679 | In every decoded message all indices are in range and the cells are in strict row-major order. |
| MsmLaws.LengthCriterion | src/rtcm_decoder_ntrip.cpp:550-679 | A message decodes exactly when header, mask, satellites and cells all fit; otherwise the error names the first block, and field, that ran out. |
| MsmLaws.RawRoundTrip | src/rtcm_decoder_ntrip.cpp:548-679 | Raw field values in range, packed in the order the code reads and followed by anything, are recovered. |
| MsmLaws.ConsumesExactly | src/rtcm_decoder_ntrip.cpp:550-679 | The bits a successful decode takes up are exactly as many as the length criterion asks for. |
| MsmLaws.DecodedWasPacked | src/rtcm_decoder_ntrip.cpp:548-679 | The converse: a message that decodes is the packing of the values found, as long as what the decode took up, and then the bits the cursor is left before. |
| MsmLaws.MsmRoundTrip | src/rtcm_decoder_nats.cpp:527-665 | For MSM4 to MSM7, any masks and any values in range, signed ones included, decoding the encoding reports the message. |
| MsmReport.Render | src/rtcm_decoder_ntrip.cpp:698-739 | Every satellite with a cell gets exactly one heading, in increasing order, and every cell one line under its own heading. |
| MsmReport.LinesByNumbers | src/rtcm_decoder_ntrip.cpp:698-739 | The line of every cell names its satellite and signal; range and phase are available unless the whole milliseconds are 255 or the value is the lowest its width of 15 or 20, 22 or 24 bits can hold. |
| MsmFieldOrder.ColumnsLength | src/rtcm_decoder_ntrip.cpp:586-679 | Field by field and block by block, the same number of bits is used. |
| MsmFieldOrder.OrdersAgree | src/rtcm_decoder_ntrip.cpp:586-679 | The two layouts of a run of blocks are the same bits for all values exactly when there is at most one block. |
| MsmFieldOrder.ColumnsReadExactly | src/rtcm_decoder_ntrip.cpp:586-679 | Reading a run laid out field by field gives back all values exactly when there is at most one block. |
| MsmFieldOrder.FieldOrderResult | src/rtcm_decoder_ntrip.cpp:548-679 | What the decoder reports for a message laid out field by field: what reading blocks in place of its columns gives. |
| MsmFieldOrder.FieldOrderIsAccepted | src/rtcm_decoder_ntrip.cpp:586-679 | A message laid out field by field always decodes without an error. |
| MsmFieldOrder.SmallMessagesAreRead | src/rtcm_decoder_ntrip.cpp:586-679 | With at most one satellite and one cell its values are recovered. |
| MsmFieldOrder.ReadRightExactly | src/rtcm_decoder_ntrip.cpp:548-679 | For every type, header and cell mask: all messages with them, laid out field by field, are reported as they were meant exactly when they announce at most one satellite and at most one cell. |
| MsmFieldOrder.TwoSatellitesMisread | src/rtcm_decoder_ntrip.cpp:589-614 | An MSM4 sent with whole milliseconds 0 and 128 is reported with 0 and 0, and with a fraction that was not sent. |
| ResponseHeader.HeaderFragmentation | src/rtcm_decoder_ntrip.cpp:924-951 | However a response is cut, even inside the terminator, exactly the bytes after the first CRLFCRLF of an accepted header are passed on, once and in order; a refused header passes on nothing. |
| ResponseHeader.NonEmptyExplained | src/ntrip.cpp:231-263 | The same for the handler that ignores empty reads. |
| HeaderText.DecoderAcceptsExactly | src/rtcm_decoder_ntrip.cpp:957-962 | However a response is cut, once its empty line is there the decoder passes on what follows exactly when it starts with ICY 200, HTTP/1.0 200 or HTTP/1.1 200, and refuses it otherwise. |
| HeaderText.UnauthorizedIsRefused | src/rtcm_decoder_ntrip.cpp:957-962 | A response that starts with HTTP/1.1 401 is refused. |
| HeaderText.WaitsForTheEmptyLine | src/rtcm_decoder_ntrip.cpp:924-951 | Without an empty line nothing is decided. |
| HeaderText.BridgeAcceptsExactly | src/ntrip.cpp:231-270 | The bridge passes on what follows exactly when the status line, up to the first line end, holds 200 between two spaces or starts with ICY 200. |
| HeaderText.BodiesByText | src/rtcm_decoder_ntrip.cpp:924-962 | The same for what a whole response carries, for both clients. |
| HeaderText.NoBodyYet | src/rtcm_decoder_ntrip.cpp:924-951 | A response without an empty line carries nothing. |
| ResponseHeader.NtripDecoderClient.constructor | src/rtcm_decoder_ntrip.cpp:816-832 | A new client awaits a header with an empty framer and no failures behind it. |
| ResponseHeader.NtripDecoderClient.OnBytes | src/rtcm_decoder_ntrip.cpp:924-951 | The client moves exactly as the header state machine, and its framer has seen exactly the pieces passed on. |
| ResponseHeader.NtripDecoderClient.Connected | src/rtcm_decoder_ntrip.cpp:861-863 | A connection starts a new header and a new count of failures; the framer keeps what it holds. |
| ResponseHeader.NtripDecoderClient.Reconnect | src/rtcm_decoder_ntrip.cpp:979-991 | After k failures since the last connection the delay is 1 second doubled k times, at most 30; nothing happens when the program is ending. |
| ResponseHeader.NtripConnection.constructor | src/ntrip.cpp:143-153 | A new connection awaits a header, has handed over nothing and starts with the minimum delay. |
| ResponseHeader.NtripConnection.Connect | src/ntrip.cpp:160-163 | A new attempt awaits a new header; what was handed over and the delay stay. |
| ResponseHeader.NtripConnection.HandleStreamBytes | src/ntrip.cpp:231-263 | The connection moves exactly as the header state machine; the handler, if any, has been given exactly the body. |
| ResponseHeader.NtripConnection.Reconnect | src/ntrip.cpp:272-293 | A partial header is dropped, and after k reconnections in the life of the object the delay is the minimum doubled k times, up to the maximum. |
| EndToEnd.DecodedFromStream | src/rtcm_decoder_ntrip.cpp:924-951 | What is decoded on a connection depends on the whole response alone, not on its fragmentation. |
| EndToEnd.ReadLoop | src/rtcm_decoder_ntrip.cpp:901-917 | Reading piece by piece until the connection ends leaves the framer as one push of the accepted body would; a refused header stops the reading. |
| EndToEnd.ConsumeLoop | src/ntrip.cpp:216-229 | The same for the bridge's client: its handler has been given exactly the accepted body of the whole stream. |
| EndToEnd.OneStreamAcrossReconnects | src/rtcm_decoder_ntrip.cpp:855-865 | Over any number of connections the framer sees one stream, the accepted bodies joined together. |
| HeldBytes.LeftoverMattersExactly | src/rtcm_decoder_ntrip.cpp:755-785 | For every framer state: whatever follows, it delivers what a fresh framer would, exactly when none of the bytes held may still begin a frame. |
| HeldBytes.OnlyEmptyIsFresh | src/rtcm_decoder_ntrip.cpp:782-785 | It also holds the same bytes afterwards, whatever follows, exactly when it holds none now. |
| Reconnects.NextConnectionExactly | src/rtcm_decoder_ntrip.cpp:855-865 | Whatever responses the next connection can bring, cut up in any way, it delivers what it would deliver to a fresh framer exactly when no byte left over may still begin a frame. |
| Reconnects.NextConnection | src/rtcm_decoder_ntrip.cpp:855-865 | Given any leftover, all that is delivered comes from one scan over it and the new body; where an item ends at the seam, the rest is as for a fresh framer, buffer included; otherwise a frame made of bytes from both is among what is delivered, or the whole body is still held. |
| Reconnects.OneKindOfSeam | src/rtcm_decoder_ntrip.cpp:755-785 | Which of these it is, is settled by the bytes alone. |
| Reconnects.SplicedFrame | src/rtcm_decoder_ntrip.cpp:855-865 | Any frame cut anywhere between two connections is delivered, though the first delivers nothing, nor would the second alone if it brings fewer than six bytes. |
| Reconnects.SpliceExample | src/rtcm_decoder_ntrip.cpp:855-865 | The same for the frame of an empty payload behind the shortest accepted header: what is left over may still begin a frame, and the second connection delivers what it would not deliver to a fresh framer. |
| EndToEnd.FramesEndToEnd | src/rtcm_decoder_ntrip.cpp:924-951 | Frames behind an accepted header arrive complete and in order under any fragmentation. |
| EndToEnd.MsmEndToEnd | src/rtcm_decoder_ntrip.cpp:539-951 | Messages encoded, framed, sent behind an accepted header and cut up in any way are reported with their contents, in order. |
| StreamSession.TrimIsLongest | src/nats2ntrip.cpp:495-509 | A trim keeps precisely the longest end of the queue that fits the limit. |
| StreamSession.LimitByNumbers | src/nats2ntrip.cpp:488-493 | The limit is 262144 bytes, or four times the throughput option from 65536 bytes on. |
| StreamSession.TrimKeepsWithin | src/nats2ntrip.cpp:495-509 | A queue within the limit is kept whole; of any other the oldest payloads are dropped, and one more would not fit. |
| StreamSession.EveryRunIsSound | src/nats2ntrip.cpp:418-526 | In every reachable state the byte counters add up, the queue is within its limit and is the latest part of what was enqueued, and the writes are a subsequence of it without repetition. |
| StreamSession.StepKeepsInv | src/nats2ntrip.cpp:418-526 | Every step of callback, worker and stop keeps accounting, queue and order intact. |
| StreamSession.NothingStaleIsWritten | src/nats2ntrip.cpp:442-450 | Nothing enqueued before the queue is discarded after a failure is written afterwards. |
| StreamSession.NothingIsSkipped | src/nats2ntrip.cpp:468-485 | While no byte was dropped or lost, written, in-flight and queued payloads are exactly those enqueued, in order. |
| StreamSession.WaitsDouble | src/nats2ntrip.cpp:436-458 | The k-th wait, counted from zero, is min * 2^k seconds, at most max, in every run, however many connections succeed in between. |
| StreamSession.UploadSession.constructor | src/nats2ntrip.cpp:352-362 | A new session is in the initial state. |
| StreamSession.UploadSession.Enqueue | src/nats2ntrip.cpp:418-434 | Takes exactly the enqueue step and keeps the invariant. With the limit of 262144 bytes, or four times the throughput option from 65536 on: what fits is all kept and nothing dropped; otherwise the oldest payloads are dropped, one more of which would not fit. The log mark moves when the option's bytes have come in since the last. |
| StreamSession.UploadSession.TrimQueueLocked | src/nats2ntrip.cpp:495-509 | The loop leaves the trimmed queue and counts the bytes it removed as dropped, for the limit of LimitByNumbers. |
| StreamSession.UploadSession.ClearQueueLocked | src/nats2ntrip.cpp:511-526 | Discards everything queued and counts it as dropped. |
| StreamSession.UploadSession.TakeFront | src/nats2ntrip.cpp:469-479 | Takes the oldest payload and its bytes off the queue. |
| StreamSession.UploadSession.BytesWentOut | src/ntrip.cpp:353-354 | Some bytes of the chunk are on the wire, though not its last. |
| StreamSession.UploadSession.WriteReturned | src/nats2ntrip.cpp:481-484 | A successful write is recorded, with the rest of its chunk on the wire, and streaming goes on; a failed one loses its payload. |
| StreamSession.UploadSession.KeepsRunning | src/nats2ntrip.cpp:438 | The worker goes on exactly when no stop was requested. |
| StreamSession.UploadSession.SourceReturned | src/nats2ntrip.cpp:460-466 | The outcome of opening the source decides between streaming and failure. |
| StreamSession.UploadSession.Caught | src/nats2ntrip.cpp:442-445 | After a failure the worker leaves exactly when it is stopping. |
| StreamSession.UploadSession.WaitBegins | src/nats2ntrip.cpp:451-454 | The wait is the current delay in milliseconds plus the jitter. |
| StreamSession.UploadSession.WaitEnded | src/nats2ntrip.cpp:455 | The next delay is twice as long, up to the maximum. |
| StreamSession.UploadSession.StreamingReturned | src/nats2ntrip.cpp:440-441 | The reset of the delay takes place only when stopping. |
| StreamSession.UploadSession.RequestStop | src/nats2ntrip.cpp:382-388 | Sets the stop flag and nothing else. |
| UploadWorker.Run | src/nats2ntrip.cpp:436-458 | The worker's events and final state are those of the script for its turns, a run of the transition system; and if nothing interferes, it connects and delivers as much as possible. |
| UploadWorker.ConnectAndStream | src/nats2ntrip.cpp:460-486 | The events are those of the script; returns only when stopping, otherwise it throws, or goes on. |
| UploadWorker.StreamPayloads | src/nats2ntrip.cpp:468-485 | The streaming loop, likewise; without a stop or failure and with room for what comes in, it writes as many payloads as possible, one a turn, in order. |
| UploadWorker.Recover | src/nats2ntrip.cpp:442-456 | The events are those of the script: after an exception the worker leaves, or discards, waits and is back at the top of its loop. |
| WorkerScript.RunLeads | src/nats2ntrip.cpp:436-486 | Whatever happens in whichever turns, the script is a run of the transition system. |
| WorkerProgress.StreamDelivers | src/nats2ntrip.cpp:468-485 | Connected, with no stop or failure and room for everything, any arrivals: the payloads written are the first of those queued and arriving, in order, over that connection, and as many as one write a turn allows; the others are queued. |
| WorkerProgress.MostOfQueue | src/nats2ntrip.cpp:472-481 | When nothing arrives, that is one payload a turn until the queue is empty. |
| WorkerProgress.RunDelivers | src/nats2ntrip.cpp:436-486 | The same from the top of the loop: the worker connects once and then delivers. |
| WorkerProgress.TriesOn | src/nats2ntrip.cpp:442-456 | However often connecting fails, the worker waits each time and tries again. |
| WorkerProgress.TriesThenDelivers | src/nats2ntrip.cpp:436-486 | After any number of failed attempts it delivers what came in during the last wait and later, as much as possible. |
| WorkerStops.RunStops | src/nats2ntrip.cpp:382-486 | A stop requested in any turn, with two more behind it, ends the worker, whatever comes in, connects, fails or is written before and after. |
| UploadWaits.RunsFitExactly | src/nats2ntrip.cpp:451-455 | In all runs, over any number of failures, no int product of a wait overflows exactly when the maximum in milliseconds, the jitter added, is an int. |
| UploadWaits.FailingRuns | src/nats2ntrip.cpp:436-458 | There are runs with any number of waits. |
| UploadWaits.SuccessKeepsTheDelay | src/nats2ntrip.cpp:438-455 | There is a run that connects once, fails in the write, and then waits twice as long as after the failed attempt before: the success has not reset the delay. |
| Stopping.StopEndsTheWorker | src/nats2ntrip.cpp:382-458 | After a stop, in any interleaving, no payload is taken any more, at most the write and the connection under way are completed, and at most four steps of the worker follow, after which it has ended. |
| Stopping.StoppedWorkerFinishes | src/nats2ntrip.cpp:436-486 | Wherever the worker is when stopped, it is never stuck: its own steps lead to the end, as few as its place asks for. |
| Backoff.DelayClosedForm | src/nats2ntrip.cpp:455 | A delay doubled k times under a maximum is min * 2^k, or the maximum. |
| Backoff.DelayIsMonotone | src/ntrip.cpp:284 | Delays never shrink and never leave the range from minimum to maximum. |
| Backoff.WaitsFitIntoInt | src/nats2ntrip.cpp:451-455 | The int arithmetic of the waits never overflows, over any number of failures, exactly when the maximum in milliseconds plus jitter fits an int. |
| Backoff.DoublingFitsIntoInt | src/ntrip.cpp:284 | The int doubling never overflows exactly when twice the maximum fits an int. |
| ChunkedUpload.ChunkParses | src/ntrip.cpp:16-23 | A chunk at the head of a stream parses, by section 7.1 of RFC 9112, to its payload, whatever line ends the payload holds. |
| ChunkedUpload.HexRoundTrip | src/ntrip.cpp:19 | The printed chunk size reads back as the number of bytes. |
| ChunkedUpload.DigitsByText | src/ntrip.cpp:19 | The digits are 0 to 9 and a to f. |
| ChunkedUpload.NoLeadingZero | src/ntrip.cpp:19 | A chunk size starts with no zero. |
| ChunkedUpload.PartialChunkWaits | src/ntrip.cpp:16-23 | A chunk cut off anywhere is neither malformed nor the end of the stream. |
| ChunkedUpload.UploadRoundTrip | src/ntrip.cpp:347-356 | The receiver of any sequence of non-empty payloads, cut off inside any chunk, has exactly the payloads before the cut and waits for more. |
| ChunkedUpload.ChunkedWriter.constructor | src/ntrip.cpp:326-345 | A new upload has sent no chunk. |
| ChunkedUpload.ChunkedWriter.WriteSource | src/ntrip.cpp:347-356 | Empty data is refused and sends nothing; a whole chunk gives the receiver exactly one payload more; a socket that throws after part of it leaves the receiver waiting with the payloads before. A last chunk is never sent. |
| UploadEndToEnd.CasterReceives | src/nats2ntrip.cpp:460-486 | In every reachable state and for every connection ever made, what the caster makes of the bytes that went out is exactly the payloads written over it, each taken once and in order from those enqueued; writes under way or broken off add nothing, and the stream stays open. |
| UploadEndToEnd.StepKeepsWired | src/ntrip.cpp:347-356 | Every step keeps each wire equal to the chunks written over it, followed by less than one more chunk. |
| Base64.Encode | src/rtcm_decoder_ntrip.cpp:42-58 | With its 32-bit accumulator wrapping around, the loop yields one character per six bits of the input, zeros filling the last, padded to a multiple of four as in section 4 of RFC 4648. |
| Base64.EncodedLength | src/rtcm_decoder_ntrip.cpp:42-58 | The output has four characters for every three bytes begun. |
| Base64.OnlyLowTwelveBits | src/rtcm_decoder_ntrip.cpp:48-51 | Accumulators that agree in their low twelve bits yield the same character at every shift the loop can make. |
| Base64.DecodesExactlyEncodings | src/rtcm_decoder_ntrip.cpp:42-58 | A text decodes strictly to given bytes exactly when it is their encoding. |
| Base64.SymbolOf | src/rtcm_decoder_ntrip.cpp:36-37 | The table numbers its characters as the standard does. |
| IntText.AcceptedSpellings | src/ntrip2nats.cpp:40-51 | A positive int is accepted exactly when it is white space, an optional plus sign and digits to the end, with a value from 1 to the largest int. |
| IntText.DecimalIsParsed | src/ntrip2nats.cpp:40-51 | Every printed positive int is read back. |
| ConfigLines.SourceExactly | src/ntrip2nats.cpp:162-199 | A line is accepted as a given source exactly when it is its fields in order, around an accepted spelling of the port, and user, password, host and port meet their conditions. |
| ConfigLines.PrintedSourceIsParsed | src/ntrip2nats.cpp:162-199 | Every well-formed source is read back from its printed line. |
| ConfigLines.NatsExactly | src/ntrip2nats.cpp:132-157 | A server line is accepted exactly when it is nats://, a host without a colon, possibly empty, and an accepted port. |
| ConfigLines.NatsIsParsed | src/ntrip2nats.cpp:132-157 | The server kept for a line is the line with its port printed anew. |
| ConfigLines.EmptyHostIsAccepted | src/ntrip2nats.cpp:132-157 | nats://:4222 is accepted. |
| ConfigErrors.NoUser | src/ntrip2nats.cpp:166-170 | A source line with nothing before a first colon is refused for its colon. |
| ConfigErrors.NoPassword | src/ntrip2nats.cpp:171-175 | With nothing between that and a space: for its space. |
| ConfigErrors.NoHost | src/ntrip2nats.cpp:176-180 | With nothing between that and a colon: for its colon. |
| ConfigErrors.NoPort | src/ntrip2nats.cpp:181-185 | With nothing between that and a slash: for its slash. |
| ConfigErrors.BadPort | src/ntrip2nats.cpp:187-194 | With no positive int there: for its port. |
| ConfigErrors.ServerErrors | src/ntrip2nats.cpp:136-150 | The three errors of a server line and the lines they belong to. |
| ConfigErrors.OptionErrors | src/ntrip2nats.cpp:82-126 | The errors of an option line with no equals sign, a blank name or value, or a known name and a bad value. |
| ConfigErrors.HeaderExactly | src/ntrip2nats.cpp:53-76 | Exactly which headers name which section, in letters of either case, and the two errors of the others. |
| ConfigErrors.OutOfRange | src/ntrip2nats.cpp:40-51 | Zero and numbers above 2147483647 are refused. |
| TextLines.LinesExactly | src/ntrip2nats.cpp:212-213 | A text is read as given lines exactly when none of them holds a line feed and the text is each of them ended by one, which may be missing behind a last line that is not empty. |
| TextLines.LinesOfText | src/ntrip2nats.cpp:212-213 | Lines without line feeds, written to a text, are read back. |
| ConfigFile.Configuration.constructor | include/ntrip/ntrip.h:18-23 | A new configuration has the default values. |
| ConfigFile.Configuration.ParseOptionsBodyLine | src/ntrip2nats.cpp:78-130 | An option line sets exactly the option it names, and nothing when it is refused. |
| ConfigFile.Configuration.ParseNatsDestinationsBodyLine | src/ntrip2nats.cpp:132-157 | Adds the server of an accepted line, and nothing otherwise. |
| ConfigFile.Configuration.ParseNtripSourcesBodyLine | src/ntrip2nats.cpp:162-199 | Adds the source of an accepted line, and nothing otherwise. |
| ConfigFile.Configuration.ParseConfiguration | src/ntrip2nats.cpp:201-259 | The loop over the lines of a text leaves the settings, and stops with the error, of reading the lines in turn and then checking the whole. |
| ConfigText.TrimExactly | src/ntrip2nats.cpp:214 | Trimming takes off exactly the blanks at both ends. |
| ConfigText.LowerExactly | src/ntrip2nats.cpp:60 | Capitals become small letters and nothing else changes. |
| ConfigText.OptionsByName | src/ntrip2nats.cpp:95-126 | What a line read_buffer_bytes=, reconnect_min_sec=, reconnect_max_sec= or throughput_log_kb= and a printed number does: it sets that option alone. |
| ConfigText.ThroughputWraps | src/ntrip2nats.cpp:119-125 | Any number of kilobytes is kept as the 32-bit int congruent to its product with 1024. |
| ConfigText.SectionsByName | src/ntrip2nats.cpp:60-72 | What the headers [options], [nats_destinations] and [ntrip_sources] do, in any section. |
| ConfigText.ServerByText | src/ntrip2nats.cpp:132-157 | A line nats://host:port adds that server. |
| ConfigText.SourceByText | src/ntrip2nats.cpp:162-199 | A line user:password host:port/name adds that source. |
| ConfigText.CommentsByText | src/ntrip2nats.cpp:216 | Blank lines, and lines whose first character behind blanks is a number sign, are passed over. |
| ConfigText.WholeFile | src/ntrip2nats.cpp:201-259 | What is kept of a file that sets all options and names a server and a source, for all values, and that it is refused exactly when the minimum exceeds the maximum. |
| ConfigText.MissingLists | src/ntrip2nats.cpp:245-256 | The errors of files without a server or without a source. |
| ConfigFile.AcceptedIsUsable | src/ntrip2nats.cpp:245-258 | An accepted file gives 1 <= min <= max, at least one server and one source, every source well-formed and every server in canonical form. |
| ConfigFile.IgnoredMakesNoDifference | src/ntrip2nats.cpp:213-216 | A blank line or comment anywhere in a file changes nothing. |
| ConfigFile.WrapKeepsKilobytes | src/ntrip2nats.cpp:119-125 | The option is kept as that many bytes exactly when the product fits an int, and is a multiple of 1024 in any case. |
| ConfigRoundTrip.FileRoundTrip | src/ntrip2nats.cpp:201-259 | Settings whose lines survive trimming and hold no line feed are exactly what reading the text of their printed file gives. |
| ConfigRewrite.AcceptedIsPrintable | src/ntrip2nats.cpp:201-259 | The settings of an accepted text can be printed exactly when the throughput kept is at least one kilobyte, which only a product that wrapped around is not. |
| ConfigRewrite.RewritingKeepsSettings | src/ntrip2nats.cpp:201-259 | Printing what such a text says and reading it again changes nothing. |
| ConfigRoundTrip.OptionExactly | src/ntrip2nats.cpp:78-130 | A line sets a given option to a given number exactly when it is a name, its first equals sign and a value that read so, blanks around both and capitals in the name aside. |
| ConfigRoundTrip.UnknownKeyExactly | src/ntrip2nats.cpp:88-129 | A line is refused for its name exactly when name and value are not blank and the name is none of the four. |
| ConfigRoundTrip.UnknownOptionIsRefused | src/ntrip2nats.cpp:128-129 | Such a line in the options section ends the reading of the file with that error. |
| ConfigRoundTrip.DocumentedExampleIsRefused | src/ntrip2nats.cpp:128-129 | A file that begins like the documented example is refused, whatever follows. |

## Left out

- Sockets, resolvers, timers, NATS calls, signal handlers and `main`: they appear only as events (bytes arrived, connected, write succeeded or failed, wait over, stop).
- Console output, time stamps and text layout; a report is a structured value or an error tag.
- Floating-point ranges, phases and signal-to-noise values and the signal frequency tables; the model keeps the raw integers and whether they are valid.
- The decoders for 1005 to 1008, 1013, 1019, 1020, 1033, 1045, 1046 and 1230: fixed field lists that would only add easy members; no claim is made that their lists follow the RTCM tables.
- Conformance of the MSM layout to RTCM 10403.3: the round trip is proved for the order in which the code reads, and `MsmFieldOrder` compares it with the other order.
- The Logger thread, `split_csv`, option setters, null checks, status texts and the OpenSSL Base64 call.
- The configuration parser of the NATS-to-NTRIP bridge: it has the same options, checks and NATS lines, and a destination line that is a source line without a name.
- The synchronous connect, request and response calls of the upload connection, whose header test is `ResponseHeader.ResponseOk`.
- BitReading.BitReader.GetS: a width of 64, for which the shift in the source is undefined, is excluded; the largest width used is 38.
- BitReading.BitReader.GetU: modelled on unbounded numbers with the 64-bit shift written out; byte counts near the limit of size_t are not modelled.
- Framing.RtcmStreamFramer.Push: the 64-bit counters are unbounded numbers, and the negative lengths that one of the two programs also ignores are not represented.
- `std::string::find`, `std::stoi`, trimming and popcount are functions with proved properties here; the library's own loops are not modelled.
- UploadWorker.Run: ends after the turns it is given; that the real loop goes on for ever is covered by their number being arbitrary.
- WorkerProgress.StreamDelivers: for stretches without a failing write and with room for all that comes in; a failing write ends the stretch as the script says, and what is dropped for lack of room is stated of the queue.
- ResponseHeader.NtripDecoderClient.OnBytes: after a refusal the source reads once more from the closed socket, which can schedule a second reconnection; the model ends the connection at the refusal.
- ResponseHeader.NtripConnection.HandleStreamBytes: likewise, and cancellation of pending handlers is not modelled.
- StreamSession.Next: critical sections and reads of the stop flag are atomic steps; a wait may end at any time; counters are unbounded numbers and the throughput option times four is assumed to fit size_t. A write that fails is one whose last byte did not go out, as the socket library reports it.
- ConfigFile.Configuration.ParseConfiguration: takes the text of the file; opening it, read errors and line-end translation are left out, and white space and letter case are those of the C locale.
