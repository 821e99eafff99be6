# A verified model of a live streaming server

The server takes live streams over RTMP, hands them to RTMP players that may join late, and cuts
them into MPEG-TS segments for HLS. This project models the parts of it where bytes and state are
hard to get right, in the form the code has: objects whose methods change fields and fill buffers are
classes, proved against functions on values; what the code promises is proved about those functions,
for all inputs and all runs.

* RTMP chunk layer: `Bytes`, `ReadWriter` (module `Wire`), `Pool`, `ChunkFormat`, `ChunkStream`,
  `Conn` are the code and its functions; `ChunkLayout` with `ByteLayout`, `ChunkDemux`, `ConnRoundTrip`,
  `ChunkAcks`, `ChunkTheorems`, `ChunkIds`, `ChunkCompressed`, `ChunkShortened` the theorems.
* MPEG-TS: `Crc`, `TsFormat`, `TsPackets`, `TsTables`, `TsRuns` on values, `TsMuxer` the muxer.
* AMF: `AmfIO`, `AmfValues`, `Amf0Format` and `Amf3Format` on values with `Amf0Sent`, `Amf3Sent`,
  `Amf3Order`, `Amf3Values`, `Amf3Truncated` and `Amf3Doubles`, `Amf0` and `Amf3` the encoders and decoders.
* HLS: `HlsFormat`, `HlsUnits`, `HlsBytes`, `HlsReading` on values, `Hls` the segmenter with a real muxer and a
  real playlist window, `Playlist` that window.
* Around them: `PlayerQueue`, `GopFormat` and `GopCache`, `AnnexBFormat` and `AnnexB`.

A panic of the code (an index out of range, a nil dereference, a division by zero, a slice that is
too short) is an outcome of the model, not a precondition. Readers and writers of the formats (chunk
headers, a transport stream reader with its tables and clock references, a time stamp reader, a start code
scanner, AMF writers with all choices a peer has, a reader of doubles, bit-by-bit polynomial division) are
written from the standards and are independent of the code they are compared with.

## Where the code falls short of what it promises

Each is a theorem below, with the exact condition under which the code does meet the promise.

* Key frames whose PES packet is shorter than 184 bytes do not survive the muxer, except at 176 bytes:
  clock reference and stuffing overwrite each other (`TsPackets.PayloadConserved`).
* Time stamps from 2^33 on are off by one, because 2^33 - 1 is subtracted (`TsFormat.TimeStampExact`).
* The GOP cache works for one or two GOPs only; with more, the first key frame leads to a panic
  (`GopFormat.WorksExactlyForOneOrTwo`, with the other caches `GopCaches.LateJoinerExactly`).
* The reader keeps chunk streams apart by the first byte of their headers, so ids 64 to 319 are one
  stream to it, and ids 320 to 65599 another. Chunks that are in order on each id are read in full if
  and only if no message starts while one on another id of the same kind is under way
  (`ChunkIds.DeliversExactlyWithoutClash`; ids 64 and 65 in `ChunkIds.TwoIdsOneKey`).
* Before more chunks of a message the reader looks for the message's time, where a sender repeats the
  time difference it wrote; and a message without any header behind a full one takes over its time
  instead of adding it again. Whatever forms of header a sender picks, the reader stays in step with it
  up to the first chunk of either kind and no further (`ChunkShortened.RunExactly`). The writer of this
  repository uses neither form.
* A Set Chunk Size message below 4 destroys itself, since the writer changes the size before it writes
  the message (`ConnRoundTrip.TooSmallChunks`).
* AMF 3 integers from 2^28 on come back negative and class names are lost (`Amf3Values.ValueRoundTrip`);
  of AMF 3 values that break off, those are still read that break off within their last string
  (`Amf3Truncated.CutExactly`);
  AMF 0 objects with an empty property name cannot be decoded (`Amf0Format.ValueRoundTrip`).
* AMF 3 references to objects and arrays go to half their number, and in place of an object the decoder
  keeps nothing (`Amf3Sent.ReferencesAreHalved`). References to strings and to shapes of objects are right
  (`Amf3Sent.SentReads`).
* The playlist's list and map disagree as soon as a segment's file name, a wall-clock second, repeats
  one of the two before it (`Playlist.AgreeExactlyWhenFresh`, `Playlist.RepeatedNameDisagrees`).
* Thinning a queue loses no accepted packet that is to be kept, but packets stay in order if and only
  if there is none to be kept among those it looks at (`PlayerQueue.ThinnedKeepsOrderExactly`, over
  runs `PlayerQueue.OrderKeptExactly`). A packet offered to a full queue is lost whatever it is
  (`PlayerQueue.OfferedIsLostExactlyWhenFull`).
* A sequence header is stored exactly if and only if it has one parameter set of each kind and nothing
  behind them (`AnnexBs.StoresExactly`): what follows the first picture parameter set is stored as a part
  of it (`AnnexBs.ReadsSequenceHeader`), and the length of a second sequence parameter set is taken for
  the number and the length of picture parameter sets (`AnnexBs.SecondSetMisread`). A later header only
  adds to what is stored, so that its sets are all that is stored if and only if every header before it
  was refused (`AnnexBs.LatestHeaderExactly`).
* A framed picture whose first unit is a single byte is passed on as if it had start codes
  (`AnnexBFormat.LooksLikeAnnexBExactly`). Units are written as they come, so a decoder finds them again if
  and only if nothing in them is taken for the end of a unit (`AnnexBFormat.DecoderSeesExactly`).

## Model

| member | source | states |
|---|---|---|
| Wire.TakeBEOfBE | protocol/rtmp/core/read_writer.go:33-47 | reading the n big-endian bytes of a number gives it back and leaves what follows |
| Wire.TakeLEOfLE | protocol/rtmp/core/read_writer.go:49-63 | the same for little-endian bytes |
| Wire.ShortInput | protocol/rtmp/core/read_writer.go:20-63 | with too little input an integer is zero, the input is used up, the error says whether there was any, and from then on every read ends in it |
| Wire.ReadWriter.ReadUintBE | protocol/rtmp/core/read_writer.go:33-47 | the byte loop computes the big-endian value; at the end of input it gives zero, consumes what is there and the error sticks |
| Wire.ReadWriter.ReadUintLE | protocol/rtmp/core/read_writer.go:49-63 | the same for little-endian, whose loop adds shifted bytes |
| Wire.ReadWriter.Read | protocol/rtmp/core/read_writer.go:20-27 | fills exactly the wanted part of the buffer or fails, and changes nothing else of it |
| Wire.ReadWriter.WriteUintBE | protocol/rtmp/core/read_writer.go:87-99 | the shifts write the low n bytes, most significant first |
| Wire.ReadWriter.WriteUintLE | protocol/rtmp/core/read_writer.go:101-114 | the low n bytes, least significant first |
| Pools.Pool.Get | utils/pool/pool.go:10-18 | succeeds exactly up to the pool's size; every slice is disjoint from all handed out before, whose contents stay; replacing the buffer loses none |
| ChunkLayout.HeadersLaidOut | protocol/rtmp/core/chunk_stream.go:38-81 | byte by byte, the headers of first and later chunks are those of sections 5.3.1.1 to 5.3.1.3 of the RTMP specification, with ids in one, two or three bytes and the time in three bytes or four more |
| ChunkLayout.ShortHeadersLaidOut | protocol/rtmp/core/chunk_stream.go:38-81 | so are the two headers in between, with the message's own time in the place of a difference |
| ChunkLayout.WritesThatFail | protocol/rtmp/core/conn.go:82-87 | a write panics exactly on a chunk size of zero, in force or announced, and on a size change without a number; it is refused exactly above 24 bits of length, and then leaves id and time behind |
| ChunkFormat.ReadChunk | protocol/rtmp/core/chunk_stream.go:123-225 | on any bytes the state after a chunk has index + remain = Length and holds the index bytes received so far, and the input does not grow |
| ChunkFormat.ReadLoop | protocol/rtmp/core/conn.go:49-73 | the loop of reads ends, a message it returns is complete, its id is in 2..65599, and bytes were consumed for it |
| ChunkFormat.ReadMessage | protocol/rtmp/core/conn.go:48-80 | the same for a whole read with control handling and acknowledgement; the connection's invariant is kept |
| ChunkDemux.Header0Read | protocol/rtmp/core/chunk_stream.go:136-149 | the fields of a written full header are read back, the extended time stamp with all 32 bits included |
| ChunkDemux.PayloadRead | protocol/rtmp/core/chunk_stream.go:209-224 | the payload of a chunk extends the data received so far by exactly its bytes |
| ChunkDemux.ChunkRead | protocol/rtmp/core/chunk_stream.go:123-225 | a written chunk, first or later, is read as the next part of its message |
| ChunkDemux.StepReads | protocol/rtmp/core/conn.go:49-73 | one round of the reader consumes exactly one chunk of a sender in step with it and stays in step |
| ChunkDemux.ScheduleThenMore | protocol/rtmp/core/conn.go:48-73 | after any interleaving of chunks the reader is in step with the sender, whatever follows |
| ChunkDemux.DemultiplexesEverySchedule | protocol/rtmp/core/conn.go:48-87 | for every interleaving of the chunks of messages on different ids, with size changes among them, each message is returned once, intact, in the order of their last chunks, with the sender's chunk size after each |
| ConnRoundTrip.PiecesAreASchedule | protocol/rtmp/core/chunk_stream.go:83-119 | the chunks the writer makes of a message are a schedule that completes just that message |
| ConnRoundTrip.WriteInScope | protocol/rtmp/core/conn.go:82-87 | writing appends exactly the chunks of the message at the size before it, although the writer switches sizes first |
| ConnRoundTrip.RoundTrip | protocol/rtmp/core/conn.go:48-87 | any run of messages in scope is returned in order, audio on chunk stream 4, video and metadata on 6, any other on its own id, with time stamp, type, stream id and data, and after each one both sides have the same chunk size |
| ConnRoundTrip.FreshRoundTrip | protocol/rtmp/core/conn.go:35-87 | the same from two new connections |
| ConnRoundTrip.ArrivesExactlyInScope | protocol/rtmp/core/conn.go:82-87 | a message arrives, on chunk stream 4 for audio, 6 for video and metadata, its own otherwise, if and only if it is in scope: not empty, at most 512000 bytes, id in range, and a size change has four bytes and a size of at least 4 |
| ConnRoundTrip.TooSmallChunks | protocol/rtmp/core/conn.go:83-85 | a size change to 1, 2 or 3 is read as another message |
| ChunkAcks.ReadAnswers | protocol/rtmp/core/conn.go:73-80 | one read sets the window to the number of a message of type 5, counts the payload in 32 bits, and once it reaches the window writes an acknowledgement of type 3 on id 2 with the total and starts anew |
| ChunkAcks.PanicsExactly | protocol/rtmp/core/conn.go:127-146 | a message that was read panics exactly if it is of type 1 or 5 without four bytes, or an acknowledgement is due at chunk size zero |
| ChunkAcks.PeerReadsWhatIsDue | protocol/rtmp/core/conn.go:135-146 | over any reads a peer gets from what they wrote one acknowledgement, with the payload since the last one, for each message with which that reaches the window, and nothing else |
| ChunkAcks.FreshAcks | protocol/rtmp/core/conn.go:35-46 | the same from a new connection, whose window is 2500000 bytes |
| ChunkTheorems.ChunkExtends | protocol/rtmp/core/chunk_stream.go:123-225 | a chunk is decided by its own bytes: more input changes neither its result nor a panic |
| ChunkTheorems.StepExtends | protocol/rtmp/core/conn.go:49-73 | the same for a round of the read loop |
| ChunkTheorems.TruncatedChunk | protocol/rtmp/core/chunk_stream.go:123-225 | a chunk that breaks off anywhere is an error, never a panic and never a message |
| ChunkTheorems.TruncatedStream | protocol/rtmp/core/conn.go:48-73 | on every prefix of a schedule's bytes the reader returns exactly the messages whose last chunks arrived whole, and then an error |
| ChunkTheorems.ArrivedWhole | protocol/rtmp/core/conn.go:49-73 | the chunks counted as arrived are a schedule, their bytes are there and those of the next chunk are not |
| ChunkTheorems.BusyKeyEndsTheConnection | protocol/rtmp/core/conn.go:55-68 | a message that starts on an entry of the map that another is using ends the connection with exactly the messages completed before |
| ChunkTheorems.FailedStepKeepsStreams | protocol/rtmp/core/conn.go:57-68 | a round that fails leaves every stream as it was, and one that was not there at most empty |
| ChunkIds.DeliversExactlyWithoutClash | protocol/rtmp/core/conn.go:55-72 | chunks in order on each id are all delivered if and only if no message starts while another id of the same key is under way; otherwise exactly what was complete, and then the connection fails |
| ChunkIds.LowIdsNeverClash | protocol/rtmp/core/conn.go:55-57 | ids below 64 have entries of their own |
| ChunkIds.TwoIdsOneKey | protocol/rtmp/core/conn.go:55-68 | on a new connection a message on id 65 between the chunks of one on id 64 ends it with nothing returned |
| ChunkCompressed.FirstHeaderExactly | protocol/rtmp/core/chunk_stream.go:136-193 | shortened headers of all four formats are read as meant, except no header behind a full one with a time other than zero |
| ChunkCompressed.RepeatedExactly | protocol/rtmp/core/chunk_stream.go:194-205 | the repeated extended field is skipped if and only if it equals the message's time |
| ChunkCompressed.InStepExactly | protocol/rtmp/core/chunk_stream.go:136-225 | the chunk bodies of one message with a shortened header are read in step if and only if neither of the two deviations applies |
| ChunkShortened.StepIsBody | protocol/rtmp/core/conn.go:49-68 | a round of the read loop over any chunk is the reading of its body by the state its basic header selects, stored under its key |
| ChunkShortened.StepExactly | protocol/rtmp/core/chunk_stream.go:123-225 | on a connection in step with the sender a chunk is consumed and extends its message if and only if it is followed, and then both sides remember the same header |
| ChunkShortened.RunExactly | protocol/rtmp/core/conn.go:48-73 | for every interleaving of messages, each with a header as short as section 5.3.1.2 of the RTMP specification allows, the reader stays in step if and only if it follows every chunk; then it returns exactly the completed messages |
| ChunkShortened.FollowedMessagesArrive | protocol/rtmp/core/conn.go:48-73 | so it does for every interleaving in which no message lacks a header behind a full one with a time other than zero or takes several chunks with an extended difference to such a time |
| ChunkShortened.FreshShortened | protocol/rtmp/core/conn.go:35-73 | the same from a new connection |
| ChunkTheorems.ChunkPanicsExactly | protocol/rtmp/core/chunk_stream.go:31-36 | on any bytes a chunk panics if and only if its header announces more than the pool can hold |
| ChunkStreams.ChunkStream.New | protocol/rtmp/core/chunk_stream.go:31-36 | starts a message in a new slice of the pool, or panics when it is too long |
| ChunkStreams.ChunkStream.ReadHeader | protocol/rtmp/core/chunk_stream.go:136-208 | the four header formats change the fields as the function on values says, with its panics and errors |
| ChunkStreams.ChunkStream.ReadChunk | protocol/rtmp/core/chunk_stream.go:123-225 | the method reads what the function on values reads and leaves all other slices of the pool, and the bytes already received, as they were |
| ChunkStreams.ChunkStream.WriteHeader | protocol/rtmp/core/chunk_stream.go:38-81 | writes the basic header in its three forms, the message header and the extended time stamp, or refuses a length above 24 bits |
| ChunkStreams.ChunkStream.WriteChunk | protocol/rtmp/core/chunk_stream.go:83-121 | the counted loop writes exactly the chunks of the message, after the override of the id; it panics only for chunk size zero |
| Conns.Conn.ReadLoop | protocol/rtmp/core/conn.go:49-73 | the loop over copies in the map follows the function on values and keeps every slice consistent |
| Conns.Conn.HandleControlMsg | protocol/rtmp/core/conn.go:127-133 | the two control messages set their field; a payload below four bytes panics |
| Conns.Conn.Ack | protocol/rtmp/core/conn.go:135-146 | counts with wrap-around and reset, and acknowledges once the window is full |
| Conns.Conn.InitControlMsg | protocol/rtmp/core/conn.go:148-159 | a control message holds its number in its first four bytes and zeros behind; less than four is a panic |
| Conns.Conn.Read | protocol/rtmp/core/conn.go:48-80 | returns what the function on values returns; every slice returned before keeps its bytes |
| Conns.Conn.ReturnedBytes | protocol/rtmp/core/chunk_stream.go:209-219 | in every reachable state, each message ever returned still holds the bytes it was returned with |
| Conns.Conn.Write | protocol/rtmp/core/conn.go:82-87 | sets the new chunk size first and then writes with it, as the function on values does |
| Crc.EntryIsDivision | container/ts/crc32.go:3-68 | every entry of the table is eight steps of dividing by the polynomial 0x04C11DB7 |
| Crc.TableIsDivision | container/ts/crc32.go:70-77 | the table-driven loop equals bit-by-bit division, on every input |
| Crc.GenCrc32 | container/ts/crc32.go:3-78 | the loop returns the remainder of the division |
| Crc.ResidueIsZero | container/ts/crc32.go:70-77 | with its checksum appended, every section has remainder zero (Annex A of ISO/IEC 13818-1) |
| TsFormat.TimeStampRoundTrip | container/ts/muxer.go:345-364 | what a standard reader makes of a written time stamp, for every number |
| TsFormat.TimeStampExact | container/ts/muxer.go:345-349 | the reader gets the time stamp modulo 2^33 if and only if it is below 2^33 |
| TsFormat.PcrRoundTrip | container/ts/muxer.go:270-284 | the base of the clock reference is the decoding time modulo 2^33, the extension zero |
| TsFormat.PesRoundTrip | container/ts/muxer.go:292-343 | a reader of the PES header, which accepts no other fields and no stuffing, gets stream, both times and the data; the length is exact, or zero above 65535 |
| TsPackets.PacketReads | container/ts/muxer.go:74-154 | a packet that fits is read back with stream, unit start, counter and exactly its payload; the first of a key frame has the time of its frame in 33 bits as clock reference and is marked as an entry, no other has either, and all stuffing is stuffing |
| TsPackets.PayloadConserved | container/ts/muxer.go:34-159 | taking a frame's packets apart gives PES header and data if and only if the frame is not a small key frame |
| TsPackets.PacketsWellFormed | container/ts/muxer.go:62-95 | every packet is whole, of the right stream, unit start on exactly the first, counters going up by one modulo 16; of a frame that fits, exactly the first has the clock reference if it is a key frame |
| TsTables.PatReads | container/ts/muxer.go:162-202 | a standard reader accepts the association table as the one in force, with its checksum, and finds program 1 with the map's stream |
| TsTables.PmtReads | container/ts/muxer.go:205-256 | a standard reader accepts the map of program 1 as the one in force, with its checksum, and finds the streams frames are put on, their types and the clock's stream |
| TsRuns.ContinuityOverRuns | container/ts/muxer.go:58-95 | over any run of frames and tables the counters a reader sees on each stream go up by one modulo 16, whatever the others do |
| TsMuxers.PesHeaderBuffer.WriteTs | container/ts/muxer.go:345-364 | writes the five bytes of a time stamp and nothing else |
| TsMuxers.PesHeaderBuffer.Packet | container/ts/muxer.go:292-343 | fills the buffer with the PES header |
| TsMuxers.Muxer.WritePcr | container/ts/muxer.go:270-284 | writes the six bytes of the clock reference in place |
| TsMuxers.Muxer.AdaptationBufInit | container/ts/muxer.go:258-268 | fills all of the packet behind the header, with the length computed in a byte |
| TsMuxers.Muxer.Layout | container/ts/muxer.go:74-127 | header, clock reference and stuffing in byte-sized arithmetic leave exactly the room for the payload |
| TsMuxers.Muxer.FillPacket | container/ts/muxer.go:74-149 | the packet buffer holds the packet of the function on values, every byte of it |
| TsMuxers.Muxer.Mux | container/ts/muxer.go:34-159 | terminates and appends exactly the packets of the frame, with the counter it had |
| TsMuxers.Muxer.PAT | container/ts/muxer.go:162-202 | returns the muxer's own buffer with the table and the counter wrapped before use |
| TsMuxers.Muxer.PMT | container/ts/muxer.go:205-256 | the same for the map, whose checksum is computed over the buffer |
| AmfIO.ReadBytes | protocol/amf/util.go:49-61 | one read; less than asked for is an error, zero bytes at the end is not |
| Amf0Format.Decode | protocol/amf/decoder_amf0.go:10-54 | decoding is total, and every success consumes at least one byte |
| Amf0Format.DecodesEncoded | protocol/amf/decoder_amf0.go:10-151 | for every nested value the wire can hold, written in any order, decoding gives the value and leaves what follows, unless a name is empty: then an error |
| Amf0Format.ValueRoundTrip | protocol/amf/encoder_amf0.go:11-262 | the same for every value and every order of its maps: read back if and only if no property name is empty |
| Amf0Format.EcmaDecodes | protocol/amf/decoder_amf0.go:199-213 | an associative array is an object, whatever count stands before it |
| Amf0Format.BatchRoundTrip | protocol/amf/amf.go:8-38 | a batch comes back whole and then the input is at its end |
| Amf0Format.BatchOfValues | protocol/amf/amf.go:8-38 | the same for values, in whatever orders their maps were walked |
| Amf0Sent.SentReads | protocol/amf/decoder_amf0.go:10-336 | all kinds of values a peer may send by the AMF 0 specification, nested in any way, are decoded as what they mean: dates are numbers, XML is text, undefined and unsupported values are null, associative arrays are objects |
| Amf0Sent.EncodesAsSent | protocol/amf/encoder_amf0.go:11-262 | byte by byte, the encoder writes its values as the AMF 0 specification says: null as 0x05, text up to 65535 bytes as short strings, arrays as strict ones |
| Amf0Sent.RefusesOthers | protocol/amf/decoder_amf0.go:10-151 | other markers, truth values other than 0 and 1, and an empty name without the end marker are errors |
| Amf0Format.DecodeLocal | protocol/amf/decoder_amf0.go:10-336 | a result depends on the consumed bytes only, and leaves the rest as it is |
| Amf0Format.MoreInput | protocol/amf/decoder_amf0.go:10-54 | a value found at the front is found there when more input follows |
| Amf0Format.TruncatedValueFails | protocol/amf/util.go:49-61 | no part of a value's bytes decodes to a value |
| Amf0Format.TruncatedBatch | protocol/amf/amf.go:8-18 | of a batch that breaks off, exactly the values that arrived whole are returned |
| Amf0.EncodeAmf0 | protocol/amf/encoder_amf0.go:11-57 | appends the value in some order, each property once, and counts exactly the bytes written; only typed objects are refused |
| Amf0.EncodeAmf0String | protocol/amf/encoder_amf0.go:109-132 | writes the 16-bit length and the text, and counts them |
| Amf0.EncodeAmf0LongString | protocol/amf/encoder_amf0.go:268-291 | the same with a 32-bit length |
| Amf0.EncodeAmf0StrictArray | protocol/amf/encoder_amf0.go:237-262 | count and elements in order |
| Amf0.EncodeAmf0Object | protocol/amf/encoder_amf0.go:138-174 | the loop over a map in any order writes every property once, and the end marker |
| Amf0.EncodeAmf0EcmaArray | protocol/amf/encoder_amf0.go:208-231 | the number of properties before an object without marker |
| Amf0.EncodeBatchAmf0 | protocol/amf/amf.go:31-38 | the values one behind the other, each property once, all those before the first that is refused |
| Amf0.FittingIsEncodable | protocol/amf/encoder_amf0.go:11-57 | no value that fits its fields is refused, and every typed object is |
| Amf0.DecodeAmf0 | protocol/amf/decoder_amf0.go:10-54 | the decoder over a buffer gives the function's result and leaves its rest; the bytes left are the measure |
| Amf0.DecodeAmf0StrictArray | protocol/amf/decoder_amf0.go:219-241 | the counted loop follows the function, however many elements are announced |
| Amf0.DecodeAmf0Object | protocol/amf/decoder_amf0.go:119-151 | the loop until the empty name follows the function; later properties replace earlier ones |
| Amf0.DecodeAmf0EcmaArray | protocol/amf/decoder_amf0.go:199-213 | skips the count, even an unreadable one |
| Amf0.DecodeAmf0TypedObject | protocol/amf/decoder_amf0.go:315-336 | name and object |
| Amf0.DecodeBatchAmf0 | protocol/amf/amf.go:8-18 | values until an error |
| Amf3Format.U29RoundTrip | protocol/amf/decoder_amf3.go:463-485 | decoding a 29-bit integer inverts encoding it, on all of 0..2^29-1 |
| Amf3Format.U29Shortest | protocol/amf/encoder_amf3.go:415-432 | no byte string that decodes to a number is shorter than its encoding, and no decoded number is too large |
| Amf3Format.DecodesEncoded | protocol/amf/decoder_amf3.go:11-374 | for every nested value within the length limits, whatever the reference tables held, decoding gives what the wire keeps of it and leaves what follows |
| Amf3Format.KeptExactly | protocol/amf/decoder_amf3.go:80-97 | the value itself comes back if and only if its integers are in 0..2^28-1 and no object has a class |
| Amf3Format.BatchRoundTrip | protocol/amf/amf.go:8-38 | a batch comes back whole through growing tables, and then the input is at its end |
| Amf3Sent.SentReads | protocol/amf/decoder_amf3.go:11-374 | whatever a peer sends by the AMF 3 specification, with fixed and dynamic properties and references to strings and shapes sent before, is decoded as what it means, with later properties replacing earlier ones; the tables then hold the strings, the shapes, the arrays, and nothing in the place of an object |
| Amf3Sent.BatchReads | protocol/amf/amf.go:8-18 | so is a batch, from the start of a stream on |
| Amf3Sent.EncodesAsSent | protocol/amf/encoder_amf3.go:14-432 | byte by byte, the encoder writes its values as the AMF 3 specification says, everything in full and objects with fixed properties |
| Amf3Sent.ReferencesAreHalved | protocol/amf/decoder_amf3.go:203-257 | a reference to an object or array goes to half its number in the table |
| Amf3Sent.RefusesOthers | protocol/amf/decoder_amf3.go:117-215 | other markers and arrays with named elements are errors, references to strings and shapes that were not sent panic |
| Amf3Order.SortedUnique | protocol/amf/encoder_amf3.go:279-283 | sorted names make the written form of a value unique, whatever order its maps are walked in |
| Amf3Order.SortedKeys | protocol/amf/encoder_amf3.go:279-283 | a map's names, each once and ascending |
| Amf3Values.OrderIsIrrelevant | protocol/amf/encoder_amf3.go:279-283 | the limits of the wire and what it keeps are those of the value, whatever order its properties have |
| Amf3Values.ValueRoundTrip | protocol/amf/encoder_amf3.go:14-432 | every value within the limits has one written form, which is read back as what the wire keeps of it, and that is the value if and only if its integers are below 2^28 and it names no class |
| Amf3Values.BatchOfValues | protocol/amf/amf.go:8-38 | a batch of values comes back whole, and then the input is at its end |
| Amf3Truncated.CutExactly | protocol/amf/decoder_amf3.go:134-141 | a proper part of a value's bytes is read as a value if and only if it breaks off within the string with which the value ends, after its first byte |
| Amf3.EncodeBatchAmf3 | protocol/amf/amf.go:31-38 | the values one behind the other, all those before the first that is refused |
| Amf3.EncodableExactly | protocol/amf/encoder_amf3.go:415-432 | a value is refused if and only if the length of a text, an array or an object in it is beyond its field of 28 or 25 bits |
| Amf3Doubles.IntegerExactly | protocol/amf/encoder_amf3.go:33-50 | a reader of sign, exponent and fraction gets the value of an integer written as a double if and only if the integer has at most 53 bits from its first one to its last |
| Amf3Doubles.SmallIntegers | protocol/amf/encoder_amf3.go:33-50 | it always does below 2^53 |
| Amf3.Decoder.DecodeBatchAmf3 | protocol/amf/amf.go:8-18 | values until an error, with tables that grow |
| Amf3.EncodeAmf3Uint29 | protocol/amf/encoder_amf3.go:415-432 | writes the one to four bytes, or refuses |
| Amf3.EncodeAmf3 | protocol/amf/encoder_amf3.go:14-81 | appends the sorted form of the value and counts exactly the bytes written; refuses exactly lengths beyond 29 bits |
| Amf3.EncodeAmf3Array | protocol/amf/encoder_amf3.go:227-260 | length code, empty string and elements |
| Amf3.EncodeAmf3Object | protocol/amf/encoder_amf3.go:264-361 | trait, all names ascending, then all values in the same order |
| Amf3.DecodeU29 | protocol/amf/decoder_amf3.go:463-485 | the loop reads what the function reads |
| Amf3.Decoder.DecodeAmf3 | protocol/amf/decoder_amf3.go:11-48 | gives the function's result, rest and tables |
| Amf3.Decoder.DecodeAmf3String | protocol/amf/decoder_amf3.go:117-146 | references, fresh strings and what they add to the table; a short read is filled with zeros |
| Amf3.Decoder.DecodeAmf3Array | protocol/amf/decoder_amf3.go:191-235 | references and dense arrays; an array enters the table after its elements |
| Amf3.Decoder.DecodeAmf3Object | protocol/amf/decoder_amf3.go:239-374 | object and trait references, sealed and dynamic properties; an object enters the table as nothing |
| HlsFormat.GroupsPartition | protocol/hls/source.go:190-211 | dividing the frames at the key frames that find three seconds loses none and repeats none; each group starts with a key frame and is not cut later than that |
| HlsFormat.SegmentsAreGroups | protocol/hls/source.go:122-279 | over any run, segments carry exactly the groups, the open buffer and the audio cache the last one: tables, key frame, all video in order, all audio in order in units of at most six frames within two milliseconds of their time; each has the name that came with the key frame that ended it |
| HlsFormat.EndOfIsEnd | protocol/hls/source.go:190-211 | the input that ends a group is a key frame: before it the group is the open one, with it the next group begins |
| HlsUnits.UnitsExactly | protocol/hls/source.go:247-279 | over any run, every segment is the tables, then its group with every picture where it came and every six frames of sound as one unit where the sixth came, under the time of the first, then the sound that is left over |
| HlsUnits.KeepsTheBeat | protocol/hls/align.go:12-26 | while frames of sound stay within two milliseconds of a regular beat they are given exactly the beat, so nothing drifts |
| HlsUnits.OffTheBeat | protocol/hls/align.go:27-28 | a frame further off keeps its own time, and the beat starts anew from it |
| HlsBytes.ItemsOfRun | protocol/hls/source.go:197-200 | segments are numbered from one, last as long as their groups, three seconds at least, and have the names that came with the key frames that ended them |
| HlsBytes.SegmentsAreOneRun | protocol/hls/source.go:202-210 | the bytes of the segments, one behind the other, are one run of the muxer |
| HlsBytes.ContinuityAcrossSegments | protocol/hls/source.go:190-211 | so the continuity counters of every stream go on across segments |
| HlsReading.FrameGathers | container/ts/muxer.go:34-159 | a frame that fits adds just its PES packet to its stream and nothing to the other, whatever packets came before |
| HlsReading.SegmentReads | protocol/hls/source.go:190-279 | a player that cuts a segment into packets and puts its streams together gets the pictures and one frame per unit of audio, with their data and the times that were written for them |
| HlsReading.TimesExactly | container/ts/muxer.go:292-360 | a player reads a frame's times modulo 2^33 if and only if they are below 2^33 |
| HlsReading.UnitsRead | protocol/hls/source.go:261-270 | a player finds every unit of audio: one to six frames with all their data, and a time within two milliseconds and rounding of the first frame's, below 2^33 |
| HlsReading.AudioTime | protocol/hls/source.go:261-270 | the time of a unit of audio is read as its whole milliseconds |
| HlsReading.PublishedSegmentReads | protocol/hls/source.go:122-279 | over any run, a player gets from every published segment without small key frames the tables first, exactly the pictures of its group, all its audio, in order and in such units, and one clock reference for each key frame and no other; times are those of the frames below 2^33 |
| Hls.Status.UpdateTs | protocol/hls/status.go:23-32 | keeps the first and the last time stamp since the last cut |
| Hls.Aligner.AlignDts | protocol/hls/align.go:12-29 | takes the regular time if it is within two milliseconds, or starts anew |
| Hls.AudioCache.Cache | protocol/hls/audio_cache.go:24-35 | holds the frames collected so far, from the first after it was emptied |
| Hls.AudioCache.GetFrame | protocol/hls/audio_cache.go:37-40 | gives all of them and the time of the first |
| Hls.Source.MuxAudioOf | protocol/hls/source.go:261-270 | writes the collected audio as one unit once there is enough |
| Hls.Source.Publish | protocol/hls/source.go:195-200 | hands the window a segment with exactly the bytes written for its units |
| Hls.Source.CutAt | protocol/hls/source.go:190-211 | starts, ends or continues a segment as the function on values does; counters and tables go on |
| Hls.Source.SendFrame | protocol/hls/source.go:152-163 | one accepted frame: the state follows the function on values, and buffers, counters and window stay what that state stands for |
| Playlist.AgreeExactlyWhenFresh | protocol/hls/cache.go:67-76 | list and map still agree after a segment if and only if its name is none of those that stay |
| Playlist.RunShowsLast | protocol/hls/cache.go:67-76 | with names that differ from the two before, the window holds exactly the last three segments in order |
| Playlist.RepeatedNameDisagrees | protocol/hls/cache.go:67-76 | the first name that repeats one of the two before it breaks the agreement |
| Playlist.TargetCoversEveryDuration | protocol/hls/cache.go:49-62 | the target duration is at least every listed duration rounded to the nearest second (section 4.3.3.1 of RFC 8216) |
| Playlist.MediaSequence | protocol/hls/cache.go:52-55 | the media sequence number is one more than the number of segments evicted (section 6.2.2 of RFC 8216) |
| Playlist.PrintsLastItems | protocol/hls/cache.go:40-76 | after any run of segments the walk prints the last three with their names and durations, a target of the whole seconds of the longest and one more, which covers each, and a media sequence number that counts those gone |
| Playlist.TSCacheItem.SetItem | protocol/hls/cache.go:67-76 | evicts the oldest name before the new one is stored |
| Playlist.TSCacheItem.GetItem | protocol/hls/cache.go:78-83 | finds a segment by name, one of those the window shows |
| Playlist.TSCacheItem.GenM3U8PlayList | protocol/hls/cache.go:40-65 | walks the list and prints exactly the segments the window shows |
| PlayerQueue.ThinIsThinned | protocol/rtmp/rtmp.go:248-277 | thinning leaves the packets it does not look at and puts what it keeps of the others behind them |
| PlayerQueue.ThinnedKeeps | protocol/rtmp/rtmp.go:252-273 | it loses no audio, key frame or sequence header and invents nothing |
| PlayerQueue.ThinnedMovesBack | protocol/rtmp/rtmp.go:250-268 | a kept packet ends up behind all packets that were not looked at |
| PlayerQueue.AcceptedIsSentOrWaits | protocol/rtmp/rtmp.go:279-304 | over any run the queue stays 24 below its capacity and every accepted packet to be kept is sent or waits, exactly as often as it was accepted |
| PlayerQueue.OfferedIsLostExactlyWhenFull | protocol/rtmp/rtmp.go:291-295 | a packet to be kept that is offered is lost if and only if the queue is full |
| PlayerQueue.ThinnedKeepsOrderExactly | protocol/rtmp/rtmp.go:248-277 | without repeated packets the order survives if and only if none of the packets looked at is to be kept |
| PlayerQueue.OrderKeptExactly | protocol/rtmp/rtmp.go:248-304 | over a run, packets leave in the order of acceptance at every moment if and only if no thinning finds a packet to be kept among those it looks at |
| PlayerQueue.PacketQueue.DropPacket | protocol/hls/source.go:72-98 | never blocks on receiving or sending, for both capacities, and thins as the function says |
| PlayerQueue.PacketQueue.Write | protocol/rtmp/rtmp.go:279-298 | a full queue is thinned and the packet lost, otherwise it is accepted |
| GopFormat.RunHolds | protocol/rtmp/cache/gop.go:67-99 | with one or two slots no write panics and the slots hold the last GOPs, each its first 1024 packets |
| GopFormat.SendsLastGops | protocol/rtmp/cache/gop.go:101-116 | a late joiner is sent the last GOPs, oldest first |
| GopFormat.GopsPartition | protocol/rtmp/cache/gop.go:87-99 | the GOPs are all packets from the first key frame on, in order |
| GopFormat.GopsBeginWithKeys | protocol/rtmp/cache/gop.go:87-99 | each begins with a key frame and has no other |
| GopFormat.StartsWithKey | protocol/rtmp/cache/gop.go:101-116 | the first packet replayed is a key frame; nothing is replayed only if there was none |
| GopFormat.OtherCountsPanic | protocol/rtmp/cache/gop.go:79-82 | with any other number of slots the first key frame leads to a panic |
| GopFormat.WorksExactlyForOneOrTwo | protocol/rtmp/cache/gop.go:67-116 | the cache replays the last GOPs of every stream if and only if it has one or two slots |
| GopCaches.Gop.Write | protocol/rtmp/cache/gop.go:32-39 | a packet beyond the capacity is not stored |
| GopCaches.GopCache.WriteToArray | protocol/rtmp/cache/gop.go:67-85 | reuses or creates the slot's GOP as the function on values does, with its panics |
| GopCaches.GopCache.Write | protocol/rtmp/cache/gop.go:87-99 | stores what the function on values stores, nothing before the first key frame; a picture without header is a panic |
| GopCaches.GopCache.SendTo | protocol/rtmp/cache/gop.go:101-116 | sends what the function on values sends, or panics when it does |
| GopCaches.RouteKeepsLatest | protocol/rtmp/cache/cache.go:24-55 | the special caches hold the latest metadata and sequence headers; the ring was given all pictures in order |
| GopCaches.Cache.Write | protocol/rtmp/cache/cache.go:24-55 | routes a packet; only the ring can panic |
| GopCaches.Cache.Send | protocol/rtmp/cache/cache.go:57-75 | metadata, video header, audio header, then the ring: what a late joiner is sent after the packets so far |
| GopCaches.LateJoinerSuffices | protocol/rtmp/cache/cache.go:24-75 | with one or two slots, after any packets: the latest metadata, video and audio header, then the last GOPs of the pictures, oldest first, beginning with a key frame |
| GopCaches.LateJoinerExactly | protocol/rtmp/cache/cache.go:24-75 | a late joiner is sent that after every stream if and only if there are one or two slots |
| GopCaches.SpecialCache.Send | protocol/rtmp/cache/special.go:42-50 | the last packet, if there is one |
| AnnexBFormat.SplitsExactlyFramed | parser/h264/parser.go:161-215 | cutting succeeds exactly on concatenations of non-empty units with four-byte lengths and gives those units |
| AnnexBFormat.RewrittenNext | parser/h264/parser.go:168-209 | what one more unit adds: itself, the parameter sets before the first IDR, or nothing |
| AnnexBFormat.PicturesPreserved | parser/h264/parser.go:186-196 | slices, IDRs and SEIs are those of the input, in order |
| AnnexBFormat.ReadsExactlyWhole | parser/h264/parser.go:189-196 | the scanner of the standard, for start codes of three bytes with zeros before them, finds exactly the units that were written if and only if nothing in them is taken for the end of a unit |
| AnnexBFormat.ReadsWhatWasWritten | parser/h264/parser.go:189-196 | so it finds all units that are valid by section 7.4.1 of ISO/IEC 14496-10 |
| AnnexBFormat.LooksLikeAnnexBExactly | parser/h264/parser.go:123-131 | a framed picture is taken for one with start codes if and only if its first unit has a single byte |
| AnnexBFormat.DecoderSeesExactly | parser/h264/parser.go:145-232 | from any framed picture whose first unit has more than a byte, a decoder of all that is written gets the delimiter 09 f0, the units of types 1, 5 and 6 in order, and just before the first of type 5 the units of types 7 and 8 before it, or else the stored ones, if and only if nothing in these is taken for the end of a unit |
| AnnexBFormat.DecoderSeesRewritten | parser/h264/parser.go:145-232 | of units that are valid by section 7.4.1 of ISO/IEC 14496-10 it always gets them, and of them the pictures of the input |
| AnnexBFormat.BrokenIsWritten | parser/h264/parser.go:161-232 | of a picture that breaks off everything up to there is written, and the error says whether a whole length was there; what has a start code already is passed on |
| AnnexBs.ReadsSequenceHeader | parser/h264/parser.go:77-121 | of a header with one sequence parameter set, the first picture parameter set is stored with all that follows it |
| AnnexBs.SecondSetMisread | parser/h264/parser.go:103-121 | of a header with more, the second one is stored without its first byte and with all that follows it, or there is an error; which of the two depends on its length and its first byte |
| AnnexBs.StoresExactly | parser/h264/parser.go:77-121 | for any numbers of sets, what is stored are the header's sets if and only if it has one of each kind and nothing behind them |
| AnnexBs.TruncatedHeader | parser/h264/parser.go:77-115 | a header that breaks off stores nothing, and the error says in which field |
| AnnexBs.LatestHeaderExactly | parser/h264/parser.go:117-118 | the sets of a header that is accepted are what is stored if and only if every header before it was refused |
| AnnexBs.Parser.ParseSpecificInfo | parser/h264/parser.go:77-121 | adds to what is stored, or one of four errors |
| AnnexBs.Parser.IsNaluHeader | parser/h264/parser.go:123-131 | recognises a start code |
| AnnexBs.Parser.NaluSize | parser/h264/parser.go:133-143 | the big-endian length |
| AnnexBs.Parser.GetAnnexbH264 | parser/h264/parser.go:145-217 | writes the delimiter and the rewritten units, in-band parameter sets before stored ones, with exactly the error of the cut |
| AnnexBs.Parser.Parse | parser/h264/parser.go:219-232 | stores a header; of anything else it writes what a decoder is shown above to read, and gives that error |

## Left out

* Sockets, deadlines, TLS, HTTP servers, the control API, configuration, authentication and logging.
* The RTMP handshake and the command dialogues of client and server connections.
* Errors of the sink: writes to a connection or a buffer succeed.
* Goroutines: a sender takes a packet between two writes to its queue, never during one; closing a queue or a writer is not modelled.
* Wall-clock times and file names of segments: a name is an input of the step that may need it.
* The HTTP-FLV writer's queue, whose thinning receives twice per video packet.
* The FLV demuxer and the AAC parser: the segmenter's frames are those that passed them, with the distance of audio frames at the stream's sample rate as an input; times are unbounded integers.
* AMF 3 externalizable objects, dates, XML and byte arrays: the decoder's result for them is NotModelled; the AMF 0 marker that switches to AMF 3 ends the AMF 0 decoder with SwitchToAmf3.
* The decoder's AMF 0 reference cache, which nothing reads.
* The contents of doubles: eight bytes that are carried along.
* The text of the playlist: it is modelled by its numbers and entries.
* The packet data shared between the GOP cache and its readers: packets are values there.
- ConnRoundTrip.ArrivesExactlyInScope: starts from a chunk size of at least 4, which a size change in scope leaves in force, and says nothing of Set Chunk Size messages with more than the four bytes of section 5.4.1 of the RTMP specification, because a longer one may arrive by the accident of its bytes.
- ChunkStreams.ChunkStream.WriteHeader: a message's length field is the size of its data, because every caller sets it so.
- ChunkStreams.ChunkStream.WriteChunk: a message's length field is the size of its data, as above.
- Conns.Conn.Write: a message's length field is the size of its data, as above.
- Amf0Format.Decode: marker 0x11 ends the decoder with SwitchToAmf3, where the code goes on with the AMF 3 decoder.
- Amf0.DecodeAmf0: the same for marker 0x11.
- Amf3.Decoder.DecodeAmf3: dates, XML and byte arrays are NotModelled.
- Amf3.Decoder.DecodeAmf3Object: externalizable objects are NotModelled.
- Amf0.EncodeAmf0: on a refusal only says that what was there before stays; the part that was written of the refused value is not described.
- Amf3.EncodeAmf3: the same on a refusal; integers of the 64-bit kinds, which the code always writes as doubles, are not told apart from others, and integers of more than 53 bits are cut, not rounded, when they become doubles.
- GopCaches.Cache.Write: after a panic nothing is said about the ring, because the server gives the stream up then.
- PlayerQueue.OrderKeptExactly: speaks of runs whose accepted packets all differ, because packets are values and the order of equal ones has no meaning.
- AnnexBFormat.DecoderSeesExactly: a picture whose first unit is a single byte is passed on unchanged, and nothing is said of what a decoder makes of it.
- TsMuxers.Muxer.Mux: the writer is never absent, as it may be in the code.
