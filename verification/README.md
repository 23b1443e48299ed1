# A verified model of the OME Kafka bridge

This project models the parts of the bridge between a Kafka producer (Dell OpenManage Enterprise), Prometheus
remote_write and Loki where its correctness is decided, and proves properties of them with Dafny 4.11.

- **Broker** (`GoTypes`, `Binary`, `Wire`, `RecordBatch`, `RecordBatchLaws`, `PublishedBatch`, `LegacyPartitions`,
  `Produce`, `PublishedRequest`, `Metadata`, `FlexibleMetadata`, `Broker`, `Replies`, `Connection`): the cursor reader
  with its silent failures, the appending writer, the record decoders, the Metadata encoder, dispatch and the framing
  loop. Every reading method is proved against a function from buffer and cursor to value and new cursor; the round
  trips are proved about those functions, and every reply is read by a client's decoder. `SharedBroker` is the state
  machine of the topic set and the message queue under all interleavings of connections.
- **Remote write** (`Prompb`): the protobuf encoder and a receiver's decoder that inverts it.
- **Forwarders** (`Forwarder`, `ForwarderProtocol`): what a flush makes of a batch, and the batching protocol under all
  interleavings of submitters, ticker and close.
- **Disk cache** (`Order`, `Cache`, `CacheRace`): names, listing and eviction, and the race between the writers and the
  replay pass, which removes files without the lock.
- **Relabelling** (`Relabel`) and **Loki grouping** (`Loki`, `Order`).

Conventions:

- A Go string is a sequence of bytes; floats are 64-bit patterns; times are integers. Sized integers wrap where the
  Go code converts them.
- A Go run-time error that stops the process is the outcome `Fault`, not a precondition. It arises only where a length
  guard's sum wraps a 64-bit int and where a batch announces a negative record count. Whether a request faults is a
  predicate on its bytes (`Broker.Faults`).
- A range over a Go map is a loop that picks any key not produced yet. Where the body changes the map, `Relabel.Permits`
  states which schedules the Go language specification allows.
- A compiled regular expression is a pair of arbitrary functions, match and expand.
- A state machine step is a section that a mutex or a channel makes atomic, or the work between two of them.

Where code and comments disagree the model follows the code:

- `decodeRecordBatchV2` reads the attributes right after the magic byte, so its layout lacks the CRC of section 5.3.1
  "Record Batch" of the Apache Kafka documentation. `RecordBatchLaws.BatchReadBack` is about the layout the code reads,
  the modules `PublishedBatch` and `PublishedRequest` about what happens on the published one. So
  `Broker.ProduceRequestServed` and `Connection.ProducerConnection` are not about what published clients send.
- Produce requests have a transactional id only from version 3 on (section "Produce API (Key: 0)" of the Apache Kafka
  protocol guide); the code reads one in versions 0 to 2 too (`PublishedRequest.OldRequestMiscounted`).
- A sample's timestamp is written in two's complement, as a protobuf `int64` is, although a comment says zig-zag.
- The listing of the cache is called sorted by creation time. Across kinds it is not; within one kind two names are in
  that order exactly when the earlier number is at most the number made of as many leading digits of the later one
  (`Cache.NamesSortByLeadingDigits`), as it always is for numerals of equal length.
- The cache is described as the spool for failed sends, but nothing stores batches in it: a batch whose send fails is
  lost, and the ledger of the forwarder has columns for that.

## Model

| member | source | states |
|---|---|---|
| Binary.PutUvarintInto | internal/broker/broker.go:752-756 | Writing a 64-bit value into the scratch buffer stores its base-128 varint, never more than ten bytes |
| Binary.Uvarint | internal/broker/broker.go:670-671 | The decoding loop yields the value and byte count, with count 0 for an input that is too short and a negative count for an overflow |
| Binary.UvarintRoundTrip | internal/broker/broker.go:670-676 | Every unsigned 64-bit value is read back from its varint, with the right length, wherever it stands in a buffer |
| Binary.VarintRoundTrip | internal/broker/broker.go:678-684 | Every signed 64-bit value is read back from its zig-zag varint |
| Binary.GetOfPutInt | internal/broker/broker.go:602-627 | A signed integer of 1, 2, 4 or 8 bytes that fits its field is read back from its big-endian form |
| Binary.PutOfGetInt | internal/broker/broker.go:711-727 | Writing back an integer that was read reproduces its bytes |
| Binary.ByteOrder | internal/broker/broker.go:711-727 | Big-endian integers end with the low byte, and little-endian ones are the same bytes the other way round |
| Wire.Reader.ReadInt | internal/broker/broker.go:593-627 | Reads a big-endian integer; with too few bytes left the result is 0 and the cursor stays |
| Wire.Reader.ReadString | internal/broker/broker.go:629-637 | Reads a two-byte-length string; a negative or overlong length gives the empty string after consuming the length |
| Wire.Reader.ReadCompactString | internal/broker/broker.go:639-657 | Reads a compact string under 64-bit conversions; also stands for the nullable variant, whose code is the same |
| Wire.Reader.ReadBytes | internal/broker/broker.go:659-668 | Reads nullable bytes with a four-byte length; a negative or overlong length gives nil |
| Wire.Reader.ReadUvarint | internal/broker/broker.go:670-676 | A malformed varint reads as 0 and leaves the cursor |
| Wire.Reader.ReadVarint | internal/broker/broker.go:678-684 | The same for signed varints |
| Wire.Reader.ReadVarBytes | internal/broker/broker.go:686-695 | Reads nullable bytes with a varint length, or faults where the guard's sum wraps |
| Wire.SliceAt | internal/broker/broker.go:688-694 | The length guard stops an overlong read for every length whose sum with the cursor does not wrap a 64-bit int, and the read faults exactly when it does |
| Wire.VarBytesReadBack | internal/broker/broker.go:686-695 | Nullable bytes, null included, are read back from their varint-length form |
| Wire.BytesReadBack | internal/broker/broker.go:659-668 | Nullable bytes, null included, are read back from their four-byte-length form |
| Wire.StringReadBack | internal/broker/broker.go:729-736 | A string under 32768 bytes written by `writeString` is read back by `readString`, the empty one through its null form |
| Wire.CompactReadBack | internal/broker/broker.go:639-657 | A compact string is read back from its length plus one as a varint and its bytes |
| Wire.BadStringLength | internal/broker/broker.go:629-637 | A negative length, or one that passes the end, reads as the empty string, and only the length is consumed |
| Wire.BadBytesLength | internal/broker/broker.go:659-668 | The same for bytes with a four-byte length, which read as nil |
| Wire.BadVarBytesLength | internal/broker/broker.go:686-695 | The same for a varint length as long as the end does not wrap a 64-bit int; where it does, the read faults |
| Wire.ShortVarint | internal/broker/broker.go:670-684 | A varint that the buffer cuts off reads as 0, signed or not, and the cursor stays |
| Wire.LongVarint | internal/broker/broker.go:670-684 | So does one that does not fit 64 bits |
| Wire.Writer.WriteInt | internal/broker/broker.go:711-727 | Appends the integer, cut to its width, and changes nothing written before |
| Wire.Writer.WriteBool | internal/broker/broker.go:702-708 | Appends one byte, 1 or 0 |
| Wire.Writer.WriteString | internal/broker/broker.go:729-736 | Appends the two-byte length and the bytes, or length -1 for the empty string |
| Wire.Writer.WriteCompactString | internal/broker/broker.go:738-741 | Appends the length plus one as a varint, then the bytes |
| Wire.Writer.WriteUvarint | internal/broker/broker.go:752-756 | Appends the varint of a value |
| RecordBatch.DecodeRecordBatch | internal/broker/broker.go:500-515 | Fewer than 17 bytes give no message; magic 2 selects the batch decoder; anything else rewinds to the legacy decoder |
| RecordBatch.DecodeRecordBatchV2 | internal/broker/broker.go:517-547 | Skips the batch header in the layout the code reads, takes base timestamp and count, faults on a negative count, else decodes the records |
| RecordBatch.DecodeRecords | internal/broker/broker.go:528-546 | The record loop yields the records one by one until the count or the buffer is used up, all with the batch's timestamp |
| RecordBatch.DecodeRecord | internal/broker/broker.go:529-539 | One iteration: skips the record prologue, takes key and value, skips the headers |
| RecordBatch.SkipHeaders | internal/broker/broker.go:535-539 | The header loop skips two nullable byte strings per announced header, none for a negative count |
| RecordBatch.DecodeLegacyMessageSet | internal/broker/broker.go:549-568 | The message loop yields messages until fewer than 12 bytes are left or a size is not positive or not wholly present |
| RecordBatch.RecordAt | internal/broker/broker.go:529-545 | Every record consumes at least one byte while bytes are left, even when its varints do not decode, and never leaves the buffer |
| RecordBatchLaws.RecordCountBound | internal/broker/broker.go:526-546 | A batch yields at most as many messages as it announces and as bytes it consumes |
| RecordBatchLaws.LegacyCountBound | internal/broker/broker.go:549-568 | A legacy set yields at most one message per twelve bytes consumed |
| RecordBatchLaws.BatchReadBack | internal/broker/broker.go:517-547 | Any magic-2 batch in the layout the code reads, with nullable keys and values and any headers, yields exactly its records in order, and the cursor ends right behind it |
| RecordBatchLaws.NegativeHeaderCount | internal/broker/broker.go:535-539 | A record whose header count is negative has no headers, and reading goes on behind the count |
| PublishedBatch.PublishedBatchReadsBaseSequence | internal/broker/broker.go:517-527 | On a batch in the published layout, with its CRC, the code takes the base sequence for the count: a negative one faults, 0 yields nothing, and with a positive one records are read from the real count on |
| PublishedBatch.PublishedBatchMisread | internal/broker/broker.go:517-546 | A published batch yields its own records exactly when it has none and its base sequence is 0; even then the cursor stops short, so it is never read back. For a positive base sequence this is shown for records that have the lengths they announce and counts that fit complete varint bytes, as every count under 128 does |
| PublishedBatch.PositiveSequenceCanFault | internal/broker/broker.go:526-546 | A positive base sequence can fault too: it does when the first record announces a length whose end wraps a 64-bit int |
| PublishedBatch.NothingsAreRead | internal/broker/broker.go:526-546 | The bound on the count is needed: 128 to 255 records of nothing, with as high a base sequence, come out right, though the cursor stops short |
| PublishedBatch.SomeAreReadBack | internal/broker/broker.go:526-546 | With one header and an offset delta in the last of them, even the cursor ends right behind the batch: some published batches with such counts are read back completely, by accident |
| RecordBatchLaws.TruncatedLegacySet | internal/broker/broker.go:549-568 | From magic-0 messages that end the buffer and are cut at any byte, the decoder returns exactly those wholly present |
| RecordBatchLaws.TruncatedLegacyBatch | internal/broker/broker.go:500-515 | The same through the format check of `decodeRecordBatch` |
| RecordBatchLaws.FormatByMagic | internal/broker/broker.go:500-515 | Fewer than 17 bytes hold no batch; else the seventeenth tells the format: 2 is the batch format, all else the legacy one |
| LegacyPartitions.LegacyReadsOn | internal/broker/broker.go:549-568 | The size before a set is ignored: the set is read whole, and then whatever stands behind it, as if it belonged to it |
| LegacyPartitions.LegacySetFollowed | internal/broker/broker.go:549-568 | The messages of a set come out right exactly when fewer than twelve bytes follow it or they hold no possible message size; the cursor ends right behind it exactly in the former case, and else at least twelve bytes late |
| LegacyPartitions.SmallOffsetStops | internal/broker/broker.go:551-555 | A following partition whose first offset is below 2^32 holds no possible size |
| LegacyPartitions.SecondSetEnteredLate | internal/broker/broker.go:438-457 | In a request with two such partitions the first then comes out right, and the second is entered twelve bytes late, with half of its first offset for its partition number |
| LegacyPartitions.TwoLegacyPartitions | internal/broker/broker.go:438-457 | Of two different partitions that end a request both come out right exactly when the second is empty, unless its first offset happens to hold its number and its last message has neither key nor value bytes |
| Produce.ProduceReadBack | internal/broker/broker.go:405-465 | From any nested request of topics, partitions and batches in the non-flexible layout, wherever it stands, the decoder recovers exactly the records, in order, with topic and partition, and consumes exactly the request |
| Produce.ProduceInverse | internal/broker/broker.go:405-465 | When the request ends the buffer, all of it is consumed |
| Produce.NegativeTopics | internal/broker/broker.go:415-423 | A negative number of topics is none |
| Produce.NegativePartitions | internal/broker/broker.go:431-438 | A topic with a negative number of partitions has none |
| Metadata.MetadataDecodes | internal/broker/broker.go:290-402 | In versions 0 to 8 (before 3 in the layout the code writes, with a throttle time) and for every order of the topics, a protocol client reads back the correlation id, the broker's host and port and one leader-1 partition per topic, with no byte left over; it rejects the response exactly when a topic has the empty name |
| Metadata.MetadataReadBackExactly | internal/broker/broker.go:274-402 | A client gets back what the broker means exactly when no topic name is empty or longer than its two-byte length can say, as a name from a flexible request can be |
| FlexibleMetadata.FlexibleMetadataRead | internal/broker/broker.go:290-402 | From version 9 on, in the layout the code writes, the response too holds exactly the correlation id, host, port and one leader-1 partition per topic, whatever the names and their order |
| Metadata.ExpectedTopicNames | internal/broker/broker.go:334-393 | What the client sees is one topic per enumerated name, at its place |
| Broker.Broker.constructor | internal/broker/broker.go:52-64 | A new broker knows the configured topics and has an empty queue |
| Broker.Broker.ReadRequested | internal/broker/broker.go:248-261 | Reads the requested names in either encoding |
| Broker.Broker.ReadNames | internal/broker/broker.go:251-260 | The name loop reads as many names as announced, none for a negative count |
| Broker.Broker.AutoCreate | internal/broker/broker.go:263-272 | With auto-creation on, exactly the non-empty requested names join the topic set; otherwise it stays |
| Broker.Broker.ListTopics | internal/broker/broker.go:274-279 | The slice lists each topic of the set once, in an order left open |
| Broker.Broker.HandleMetadata | internal/broker/broker.go:245-403 | Grows the topic set by the requested names and answers with the set after that, in some order, with the advertised host and port, or localhost and 9092 where none is configured |
| Broker.Broker.HandleProduce | internal/broker/broker.go:405-479 | Sends every decoded message to the queue in order, dropping what does not fit, and acknowledges; a request that faults has sent what it carries up to the fault |
| Broker.Broker.ReadCount | internal/broker/broker.go:416-436 | Reads an array length, cut to 32 bits in the flexible encoding |
| Broker.Broker.ProduceTopics | internal/broker/broker.go:423-461 | The topic loop queues the messages of every topic in order, up to a fault |
| Broker.Broker.ProducePartitions | internal/broker/broker.go:438-457 | The partition loop queues the messages of every partition in order, up to one that faults |
| Produce.EverythingSent | internal/broker/broker.go:423-461 | What is sent partition by partition is, without a fault, all that the request decodes to |
| Broker.Broker.Send | internal/broker/broker.go:447-453 | A message is appended while the queue holds fewer than 4096, else dropped |
| Broker.EnqueueKeepsPrefix | internal/broker/broker.go:447-453 | With no reader in between, exactly the first messages that fit are kept and the rest dropped |
| Broker.EnqueueConcat | internal/broker/broker.go:447-453 | Sending two lists one after the other is sending their concatenation |
| Broker.Broker.HandleApiVersions | internal/broker/broker.go:207-243 | Lists the five supported keys with their version ranges in either encoding |
| Replies.ApiVersionsRead | internal/broker/broker.go:209-239 | In versions 1 to 3 a client decodes the reply to no error, no throttling and exactly the ranges Produce 0 to 8, Metadata 0 to 9, ApiVersions 0 to 3, SaslHandshake 0 to 1 and SaslAuthenticate 0 to 2, with nothing left over |
| Replies.ApiVersionsReadInVersion0 | internal/broker/broker.go:232-239 | In version 0, which has no throttle time, it decodes the same ranges, and four zero bytes are left over |
| Broker.Broker.HandleRequest | internal/broker/broker.go:150-190 | A request under four bytes is refused; any other is answered by the handler of its key, unless its bytes make the decoding fault; in either case topic set and queue change by exactly what the request names and carries |
| Broker.AnswerStartsWithCorrelation | internal/broker/broker.go:207-496 | Whichever handler ran, the response starts with bytes 4 to 7 of the request, or with zeros when the request ends before them |
| Broker.ProduceRequestServed | internal/broker/broker.go:156-181 | Handling a Produce request of versions 0 to 8 in the layout the code reads, with a transactional id and batches without a CRC, never faults and carries exactly its records to the queue |
| PublishedRequest.NonIdempotentProducerFaults | internal/broker/broker.go:405-479 | A published Produce request of versions 3 to 8 whose first batch has a negative base sequence, as without idempotence, stops the process, whatever follows, and nothing of it is queued |
| PublishedRequest.OldRequestMiscounted | internal/broker/broker.go:408-423 | In a published request of versions 0 to 2, which has no transactional id, the code takes acks for its length, finds the number of topics two or three bytes late, and reads topics from within the first topic's name |
| Broker.MetadataRequestServed | internal/broker/broker.go:156-179 | An encoded Metadata request of versions 0 to 8 never faults and asks for exactly its names |
| Broker.NullNamesServed | internal/broker/broker.go:257-262 | A negative number of names, as the null by which a client asks for all topics, names none |
| Broker.FlexibleMetadataRequestServed | internal/broker/broker.go:156-179 | So does one of version 9 or higher, with compact strings and counts, in the layout the code reads |
| Broker.HeaderReadBack | internal/broker/broker.go:154-172 | A request header with a plain client id is read back below version 3 of ApiVersions, 9 of Metadata and Produce, and 6 of all other keys |
| Broker.FlexibleHeaderReadBack | internal/broker/broker.go:154-172 | From those versions on, one with a compact client id and tagged fields is |
| Broker.HandleSaslHandshake | internal/broker/broker.go:481-487 | The refusal of a SASL handshake |
| Replies.SaslHandshakeRead | internal/broker/broker.go:481-487 | A client decodes error 33, unsupported mechanism, and an empty list of mechanisms, with nothing left over |
| Broker.HandleSaslAuthenticate | internal/broker/broker.go:489-496 | The refusal of a SASL authentication |
| Replies.SaslAuthenticateRead | internal/broker/broker.go:489-496 | A client decodes error 58, authentication failed, no message and null bytes, with nothing left over |
| Broker.BuildErrorResponse | internal/broker/broker.go:570-575 | The reply to an unsupported key |
| Replies.ErrorRead | internal/broker/broker.go:570-575 | A client decodes error 35, unsupported version, and nothing else |
| Replies.ProduceReplyRead | internal/broker/broker.go:467-478 | A producer decodes an empty list of topics and no throttling: no partition is acknowledged by itself |
| Broker.WriteMetadataHead | internal/broker/broker.go:290-326 | Writes the response up to the topics, field by field as the version demands |
| Broker.WriteTopicMeta | internal/broker/broker.go:335-392 | Writes one topic with its partition, field by field as the version demands |
| Connection.HandleConn | internal/broker/broker.go:98-148 | For every input, the output is one length-prefixed reply for each of the first frames, in order, a metadata reply listing exactly the topics known once its request is served; the loop stops only at the end of the input or a bad size, at a request under four bytes, at a faulting request, when told to, or when a reply is only partly written; queue and topic set hold what the served requests carried and named, the last one included when it faulted or its reply was lost |
| Connection.ReadFrame | internal/broker/broker.go:114-130 | A frame of 1 to 33554432 bytes that is wholly present is taken whole; anything else ends the connection |
| Connection.FramesReadBack | internal/broker/broker.go:114-143 | Framing by length prefixes loses nothing: the other side recovers the whole frames and takes nothing for a frame cut off behind them |
| Connection.OneReplyPerRequest | internal/broker/broker.go:103-147 | A client that sends well-sized frames of at least four bytes and is drained reads exactly one reply per request, in order, each starting with that request's correlation id |
| Connection.ProducerConnection | internal/broker/broker.go:103-147 | What a connection whose Produce requests are in the layout the code reads carries in all is what its requests carry, record by record and in order |
| Connection.MetadataReplyTells | internal/broker/broker.go:281-288 | A metadata reply on a connection decodes to the advertised host and port, or localhost and 9092 where none is configured, and exactly the topics known once its request is served, its own auto-created ones among them, if and only if all those topics have names a client can read |
| Connection.FlexibleMetadataReplyTells | internal/broker/broker.go:281-288 | From version 9 on the same holds for all names, in the layout the code writes |
| Connection.ReplyTells | internal/broker/broker.go:174-190 | By the key of its request every other reply tells a client the supported versions, an empty acknowledgement, or the error that refuses it |
| SharedBroker.RunKeepsInv | internal/broker/broker.go:45-50 | Every interleaving of connections and the consumer, up to a fault that stops the process, keeps the shared invariant on topic set, queue and provenance of messages |
| SharedBroker.SendReady | internal/broker/broker.go:447-453 | A connection with a decoded message left to send can always make that send |
| SharedBroker.TopicSetGrows | internal/broker/broker.go:263-279 | The topic set only grows, always holds the configured names, and holds only configured or requested ones, none but configured ones with auto-creation off, and the empty name only if configured |
| SharedBroker.AnswerIncludesRequest | internal/broker/broker.go:263-279 | A metadata answer includes the configured topics and, with auto-creation on, every non-empty name of its own request, whatever ran between lock and copy |
| SharedBroker.AnswerIsSnapshot | internal/broker/broker.go:274-279 | The topics of a metadata answer are those of the shared set at one moment after its own were created |
| SharedBroker.QueueBoundedAndOrdered | internal/broker/broker.go:447-453 | The queue never exceeds 4096, and what was delivered from a connection is, in order, a subsequence of what that connection decoded |
| SharedBroker.NothingDropped | internal/broker/broker.go:447-453 | As long as the queue never fills up, every message a connection has sent is queued or delivered, in order |
| Prompb.AppendVarint | pkg/prompb/prompb.go:110-114 | Appends the varint of a 64-bit value |
| Prompb.AppendTag | pkg/prompb/prompb.go:106-108 | Appends the shifted field number or-ed with the wire type as one varint, the plain sum for a wire type of three bits |
| Prompb.AppendString | pkg/prompb/prompb.go:116-119 | Appends the length and the bytes |
| Prompb.MarshalLabel | pkg/prompb/prompb.go:81-91 | Fails exactly on an empty name, else gives name and value as fields 1 and 2 |
| Prompb.MarshalSample | pkg/prompb/prompb.go:93-104 | Gives the value bits and the two's complement timestamp as fields 1 and 2 |
| Prompb.MarshalTimeSeries | pkg/prompb/prompb.go:58-79 | Fails exactly when some label name is empty, else embeds the labels, then the samples |
| Prompb.Marshal | pkg/prompb/prompb.go:43-56 | Fails exactly when some label name is empty; otherwise a receiver decodes the result to the same request |
| Prompb.FieldsRoundTrip | pkg/prompb/prompb.go:43-119 | A generic reader of Protocol Buffers fields recovers every list of fields |
| Prompb.RequestRoundTrip | pkg/prompb/prompb.go:43-119 | A decoder that accepts fields in any order, skips unknown ones and lets the last scalar win returns the same series, labels, value bits and timestamps, negative ones too |
| Prompb.EncodingInjective | pkg/prompb/prompb.go:43-56 | Different requests never share an encoding |
| Relabel.New | internal/relabel/relabel.go:24-44 | Fails exactly when an anchored pattern does not compile; otherwise each rule has its defaults filled in |
| Relabel.AnchoredPattern | internal/relabel/relabel.go:26-36 | The compiled pattern is the given one, or (.*), between ^(?: and )$ |
| Relabel.JoinValues | internal/relabel/relabel.go:98-104 | Joins the values of the source labels, a missing one counting as empty |
| Relabel.Range | internal/relabel/relabel.go:74-92 | A loop over the labels follows some schedule Go permits and leaves what that schedule yields |
| Relabel.Apply | internal/relabel/relabel.go:48-96 | For the iteration orders that happened, keeps or drops the sample and changes the labels as the rules say, in order, stopping at a drop |
| Relabel.DropAndKeepRules | internal/relabel/relabel.go:51-60 | A drop rule keeps exactly the samples whose joined source values do not match, a keep rule exactly those whose do, and neither changes a label |
| Relabel.ReplaceRule | internal/relabel/relabel.go:61-73 | A replace rule does nothing without a match or a target label; an empty expansion deletes the target, any other is its new value, and no other label changes |
| Relabel.LabelRules | internal/relabel/relabel.go:74-94 | Under every schedule labeldrop leaves exactly the labels that do not match, labelkeep those that do, labelmap the original labels overridden by the renamed ones where the rename is orderly, and an unknown action all |
| Relabel.JoinedIsSourceText | internal/relabel/relabel.go:98-104 | The joined value is the source labels' values from left to right with the separator between them, a missing one empty |
| Relabel.DropAndKeepPartition | internal/relabel/relabel.go:81-92 | Under every iteration order, labeldrop and labelkeep with one regex are the two filters of a partition of the labels |
| Relabel.LabelMapResult | internal/relabel/relabel.go:74-80 | Where the rename is orderly on the names of a label set, every schedule, whether or not it visits inserted labels, ends in the original labels overridden by the renamed ones |
| Relabel.LabelMapConfluenceOn | internal/relabel/relabel.go:74-80 | On all label sets with names from a finite set, labelmap is independent of iteration order exactly when no two of the names move to one place and, where one moves to a name that moves too, that name is not among them and moves right back |
| Relabel.LabelMapConfluence | internal/relabel/relabel.go:74-80 | On all label sets whatsoever, exactly when no two names at all move to one place and none moves to a name that moves on |
| Relabel.StrippingPrefix | internal/relabel/relabel.go:34-46 | A rule that strips a prefix with the default replacement is orderly on a set of names exactly when none of them has the prefix twice and something behind |
| Relabel.FreshInjectiveIsOrderly | internal/relabel/relabel.go:74-80 | In particular when the rename is injective on the matching labels at hand and yields no matching name: each matching label gets its renamed copy, and nothing else changes |
| Relabel.ApplyConcatenation | internal/relabel/relabel.go:48-96 | A concatenated rule list is the first list and then, if the sample is kept, the second |
| Loki.FingerprintOf | pkg/lokiwriter/writer.go:95-110 | Whatever order the map gives its keys in, the result is the same function of the label set |
| Loki.FingerprintInvertible | pkg/lokiwriter/writer.go:95-110 | A parser recovers the label set from its fingerprint exactly when no key holds '=' and no value holds ',' |
| Loki.FingerprintInjective | pkg/lokiwriter/writer.go:95-110 | Such label sets with one fingerprint are equal |
| Loki.UncleanCollision | pkg/lokiwriter/writer.go:95-110 | A comma in a value can make two different label sets share a fingerprint |
| Loki.PrintUniqueExactly | pkg/lokiwriter/writer.go:95-110 | A label set has its fingerprint for itself exactly when the fingerprint holds at most one '='; any other is shared with a set of one label |
| Loki.PushStreams | pkg/lokiwriter/writer.go:49-65 | One stream per fingerprint, holding for each of its entries in input order a numeral that reads as its time and its line; for clean labels, one stream per label set |
| Loki.StreamHolds | pkg/lokiwriter/writer.go:58-59 | The values of a stream are, in order, those of exactly the entries with its fingerprint |
| Order.DecimalRead | pkg/lokiwriter/writer.go:58 | A decimal reader gets every time back from its numeral, negative ones too |
| Loki.GroupingExactly | pkg/lokiwriter/writer.go:49-65 | Each label set has one stream with all its entries in order exactly when no two label sets that occur share a fingerprint |
| Loki.CleanGrouping | pkg/lokiwriter/writer.go:49-65 | For clean labels equal label sets share a stream, different ones never do, and every entry is in exactly one |
| Forwarder.CopyOver | internal/forwarder/forwarder.go:109-114 | Copying a map over another overrides it, in any map order |
| Forwarder.ListLabels | internal/forwarder/forwarder.go:121-124 | The slice lists each label once, in an order left open |
| Forwarder.MetricsForwarder.Append | internal/forwarder/forwarder.go:72-75 | The locked section of Submit appends and reports the new length |
| Forwarder.MetricsForwarder.TakeBatch | internal/forwarder/forwarder.go:95-102 | The locked section of flush takes everything pending |
| Forwarder.MetricsForwarder.Submit | internal/forwarder/forwarder.go:71-80 | Undisturbed, a Submit that reaches the batch size flushes everything, so fewer than a batch stay pending |
| Forwarder.MetricsForwarder.BuildOne | internal/forwarder/forwarder.go:106-132 | A sample is dropped, or becomes one series whose labels are its relabelled merge, each name once |
| Forwarder.MetricsForwarder.Flush | internal/forwarder/forwarder.go:94-154 | The body of a successful marshal decodes to one series per kept sample, in batch order; nothing is sent when all are dropped, and marshalling fails exactly on an empty label name |
| Forwarder.SeriesByPlace | internal/forwarder/forwarder.go:104-133 | The k-th series is the k-th kept sample, with its value, its relabelled labels each once, and its time in nanoseconds rounded down to milliseconds wherever that fits 64 bits |
| Forwarder.KeptPlacesExact | internal/forwarder/forwarder.go:117-119 | The kept samples are exactly those relabelling does not drop, in batch order |
| Forwarder.EmptyNameLosesBatch | internal/forwarder/forwarder.go:139-144 | The batch fails to marshal exactly when relabelling leaves some kept sample a label with an empty name |
| Forwarder.UnrelabelledSeries | internal/forwarder/forwarder.go:108-115 | Without rules a series carries the metric name, the sample's labels, and the extra labels they do not override, and nothing else |
| Forwarder.LogForwarder.Submit | internal/forwarder/forwarder.go:237-246 | The same threshold for single log entries |
| Forwarder.LogForwarder.Flush | internal/forwarder/forwarder.go:260-300 | The kept entries, in batch order with their relabelled labels, are grouped into streams |
| Forwarder.EntriesByPlace | internal/forwarder/forwarder.go:269-286 | The k-th entry of a push is the k-th kept one, with its time, its line and its relabelled labels |
| Forwarder.UnrelabelledEntry | internal/forwarder/forwarder.go:270-277 | Without rules its labels are the entry's and the extra ones they do not override |
| ForwarderProtocol.RunKeepsInvariants | internal/forwarder/forwarder.go:71-102 | Every interleaving of submits, ticks, close and flushes keeps the ledger and the backlog invariant |
| ForwarderProtocol.ItemsConserved | internal/forwarder/forwarder.go:71-154 | The batches in swap order followed by `pending` are exactly the submitted items in lock order; each item is pending, in flight, dropped by relabelling, sent, or lost on a marshal or send error |
| ForwarderProtocol.FatesAreFinal | internal/forwarder/forwarder.go:94-154 | A taken batch keeps its items, and a finished one its outcome |
| ForwarderProtocol.BacklogBound | internal/forwarder/forwarder.go:71-102 | `pending` is at most one below the batch size plus what callers added who saw the threshold reached and have not swapped yet, hence below the batch size whenever no Submit is in progress |
| Cache.Cache.ListEntries | internal/cache/cache.go:205-213 | The listing is sorted and has each name once, whatever order the files were found in |
| Cache.Cache.EvictIfNeeded | internal/cache/cache.go:115-136 | Undisturbed, eviction removes exactly the shortest prefix of the sorted listing whose removal brings the rest within the configured megabytes |
| Cache.Cache.Write | internal/cache/cache.go:99-113 | Undisturbed, a write leaves exactly what eviction left and the new file, in all at most the limit plus that file |
| Cache.Cache.GetStats | internal/cache/cache.go:222-242 | Counts the files and adds up their sizes |
| Cache.NamesSortByTime | internal/cache/cache.go:77 | Within one kind, names whose numerals are equally long sort by creation time |
| Cache.LogsSortBeforeMetrics | internal/cache/cache.go:91 | Every log file sorts before every metrics file, whenever either was created |
| Cache.NamesSortByLeadingDigits | internal/cache/cache.go:77-91 | Whatever the lengths of the numerals, an earlier name of a kind sorts first exactly when its number is at most the number made of as many leading digits of the later one |
| Cache.LaterNameSortsFirst | internal/cache/cache.go:204-213 | In all other cases the later name sorts first |
| Cache.TenSortsBeforeNine | internal/cache/cache.go:204-213 | For example, 10 sorts before 9 |
| Cache.NamesSpelled | internal/cache/cache.go:77-91 | The spelling of the names |
| Cache.EvictsOldestOfKind | internal/cache/cache.go:121-135 | Within one kind no batch is evicted before an older one whose number is at most the leading digits of its own |
| Cache.EvictsNewerOfKind | internal/cache/cache.go:121-135 | In all other cases the newer batch is never left when the older is evicted |
| Cache.EvictsInOrder | internal/cache/cache.go:121-135 | With numerals of equal length no batch of a kind is evicted before an older one |
| Cache.EvictsLogsFirst | internal/cache/cache.go:121-135 | No metrics batch is evicted while a log batch is left, however much older it is |
| CacheRace.RunKeepsInv | internal/cache/cache.go:99-202 | Every interleaving of writes, eviction rounds and a replay pass keeps the ledger and the size invariant |
| CacheRace.RemovalKeepsSize | internal/cache/cache.go:119-135 | While a pass removes files without the lock, the running total of the eviction loop never falls below the true size of the files still listed |
| CacheRace.SizeAfterStep | internal/cache/cache.go:99-136 | Whatever a pass removes meanwhile, a write, even a failing one that leaves part of its file, leaves at most the limit plus that file, and no other step grows the directory |
| CacheRace.ReplayedAtMostOnce | internal/cache/cache.go:149-202 | Over all passes a stored batch is replayed at most once, and never when older than that pass's cutoff |
| CacheRace.EveryFileAccountedFor | internal/cache/cache.go:99-202 | A stored file is on disk unchanged, or has left by replay, expiry, corruption or eviction |
| CacheRace.ReplaysAreWanted | internal/cache/cache.go:189-200 | Only batches that are not empty and whose kind has a callback are replayed |
| CacheRace.PassServesAll | internal/cache/cache.go:149-202 | A pass that comes to the end of its list has replayed every file that was on disk when it began, but for those without such a batch, those older than its cutoff, and those evicted before their turn; those replayed, too old or not decodable are off the disk |

## Left out

- Sockets, deadlines, TLS, HTTP, snappy, JSON and YAML: their success or failure is a parameter or a free choice.
- `internal/parser/parser.go`, `internal/config/config.go`, `main.go`, logging, self-metrics and the HTTP API.
- Compiling and matching regular expressions, and lower-casing the action of a rule, which is a datatype here.
- The error result of `decodeRecordBatch` and of `marshalSample`, which the code never produces.
- Round trips of the flexible Produce encoding, version 9, which is not advertised; the code for it is modelled.
- Metadata versions 0 to 2 and 9: their published layouts differ from what the code reads and writes; the decoders and
  requests are in the code's own layouts.
- SaslAuthenticate versions 1 and 2, whose published replies have more fields than the code writes.
- PublishedBatch.PublishedBatchMisread: says nothing of counts in which a varint is not complete. Where the records
  fall then depends on all their bytes; `PublishedBatch.NothingsAreRead` and `PublishedBatch.SomeAreReadBack` are two
  ways in which they fall into place, the latter with the cursor right behind the batch.
- Running out of memory, as for a record count that a buffer cannot hold.
- Names of cache files: `StoreMetrics` and `StoreLogs` take them from the clock, and the race assumes they never repeat;
  stats and removals are assumed to work, and a file operation is one step; a failed write may leave part of its file.
- Restarts of the process: files found at the start count as stored.
- Liveness: tickers, retries and the send loops may be as slow as they like.
- Broker.Broker.HandleProduce: states the queue as it is when no other connection sends and nobody reads meanwhile; the
  interleavings are the subject of `SharedBroker`, where decoding a request is one step and each send another.
- Wire.Reader.ReadInt: one method stands for the four fixed-width readers, which differ only in the width.
- Prompb.RequestRoundTrip: assumes the encoding fits in memory, since Go lengths do.
- Connection.OneReplyPerRequest: assumes replies under 2 GiB, the range of the length prefix a client reads.
- Metadata.MetadataDecodes: assumes fewer than 2^31 topics and names under 32768 bytes, the ranges of their fields;
  `Metadata.MetadataReadBackExactly` covers longer names.
- LegacyPartitions.TwoLegacyPartitions: leaves out a second set whose first offset happens to hold its partition number
  and whose last message has neither key nor value bytes; its bytes could then come out right from twelve bytes on.
- RecordBatchLaws.TruncatedLegacySet: assumes buffer and messages under 2 GiB, the range of their size fields.
- Cache.Cache.EvictIfNeeded: adds sizes without the 64-bit wrap-around, which no real directory reaches.
