# Verification of the Kon-Agent data path

This project models the path that a data point takes from a node agent to the metrics server:
sampled, batched, logged, compressed, shipped and accumulated. It proves what each stage keeps,
and names what can be lost on the way; in particular, like the agent, it counts a batch as sent
once its frame is written, and what is under way when a connection is lost does not arrive.
`dafny verify dfyconfig.toml` checks everything.

**The stream codec** (`BitStream` to `StreamDelivery`). A Gorilla-style compressor that keeps one
state per series on either side of a connection. Classes write and read bits, bytes, the string
table and frames in place; each is proved against a function on values (`StreamFormat` holds the
format as such functions), and the functions against each other. The timestamp and value codes
are exact on all 64-bit numbers and self-delimiting. The mirror invariant (`StreamMirror`) says
that every state the encoder can still consult equals the decoder's; it survives the series cap.
`ConnectionRoundTrip` is the result: any sequence of requests encoded by one fresh encoder is
decoded by one fresh decoder to the same agents, attributes, times and points;
`EverythingArrives` says so in terms of the metrics of the requests. What the states are for is
said by `StreamCost`: over all frames a series is one Gorilla stream, and a steady one costs two
bits a point. `StreamErrors` speaks of arbitrary and of bad frames. A request must
use labels free of the bytes 0 and 1, one kind of metric per name, and sizes within the
decoder's limits (`RequestOk`); `Assembly` proves that requests as the agent builds them have
the required grouping. The series key does not contain the kind. Below the series cap any
sequence of kinds is decoded (`FewKeysCarriable`), as it occurs when sampling sets in. Beyond the
cap number series are stateless and move only the decoder's state; `Sender` keeps track of the
keys concerned, `RequestShared` says that no histogram continues from them, and
`MixedKindsBeyondCap` shows exactly what goes wrong otherwise.

Histograms arrive with their times, counts, sums and buckets, and with the bounds that their key
was first stored with (`ConnectionHistograms`); so they survive exactly when they have those
(`SurviveExactly`), and all of them do if every key has constant bounds, none where a gauge or a
sum uses it too (`ConstantBounds`). A change of kind can do harm here: if a gauge or a sum is the
first to use a key, every later histogram of that key arrives without bounds (`NumberFirst`). The
summaries that sampling makes of gauges have none anyway; but a histogram with bounds is then
taken by the server for such a summary and not accumulated (`BoundlessIgnored`).

**The connection protocol** (`Connection`, `Exporter`). Clients connect, lose connections, send
whole frames or parts of them; the server reads any number of bytes at a time. The state machine
covers every interleaving. Over all runs, what is decoded is an in-order prefix of what was sent
(`Safety`); a connection is given up only over a frame beyond the server's limit (`StaysUp`); and
on a live connection the server, once it has read what is under way, has kept it exactly when
every frame is within the limit, and then mirrors the encoder (`LiveStatesMeet`). The
exporter's retry loop (`ExportBatch` says exactly when a batch gets out) and the server's read loop are classes that are proved to take only steps
of this machine, with the outcomes of the network as arguments.

**The write-ahead log and its consumer** (`WalRecord` to `WalLimits`). Segment files of
checksummed records, with positions `(segment, offset)` on the outside and record indexes on the
inside. `WalDelivery` is a machine over the bytes (appends with rotation, reads, failed exports,
acknowledgements with or without a saved checkpoint, restarts, crashes at any byte of an append,
repair, retention) and refines a plain queue, step by step (`Traced`); `ExportsFollow` and
`NeverResent` say what that means for the order of exports, and `DrainFinishes` that the consumer
gets through. What it relies on is stated as
`Sane`: payloads within the record limit, which `Append` does not check (an oversized record
reads as damage, and the repair deletes it with every record appended behind it,
`OversizedLost`); no append between a crash and the repair, because opening a log does
not repair it (`LostBehindTear`); and a stored checkpoint that retention does not outrun. The
last holds by itself when checkpoint saves succeed (`SavedDelivery`); when they fail for long
enough, a restarted process never exports again (`RestartFindsLog`, `NothingExported`).

**Downsampling** (`Samples` to `Downsampling`). Windowed aggregation as a fold per series, the
sampling stage that switches between passing through and aggregating, and the accumulation of
deltas on the server. `PassesThrough` and `EmitsWhenDue` say which window is in use and when it is
emitted. `ServerKeepsCounters` says that no window, mode or flush changes a counter
in the end, and `RequestsKeepCounters` adds the assembling of requests in between. It asks for one temporality per sum series, one set of bounds and one number of
buckets per histogram, and empty histograms that are zero throughout; after a change of bounds
counters start over (`ChangeForgets`, `ChangeRestarts`).

**Batching and slots** (`Batch`, `Log2Slot`). The bounded batch queue under its driver, and the
shift ladder that picks a histogram bucket inside the kernel.

Machine words are ranges of integers with their wrap-around written out; floating-point numbers
are their 64-bit patterns in the codec, and exact numbers in the aggregation. Snappy and the
unmarshalling of requests are arbitrary functions, the former with a left inverse; the checksum
is an arbitrary function. Clocks, exports, saves and network events are arguments.

Places where the code does less than its comments suggest, each with its exact condition:
histogram points lose attributes, temporality, minimum and maximum, and any change of bounds
(`HistsCarriedExactly`, `SurviveExactly`, `HistogramAttributesLost`); a record over 32 MiB is
accepted, read as damage and deleted together with what follows it (`RecordRoundTrip`,
`OversizedLost`); a frame with metrics of different kinds under one name cannot
be rebuilt (`KindsMustAgree`); the series cap bounds neither histograms nor the decoder: the
encoder's map exceeds it exactly when it is full and a histogram of a key without a state is sent
(`EncoderExceedsCap`, `HistogramsUncapped`), the decoder's exactly when the connection has carried
more keys than that (`DecoderExceedsCap`), and what it does bound are the encoder's states of
other keys (`NumberStatesBounded`); and merging metrics of one name drops the points of another
kind (`Conserved`).

## Model

| member | source | states |
|---|---|---|
| BitStream.BitWriter.WriteBit | internal/transport/codec/bitstream.go:12-22 | the bits written so far grow by exactly this bit |
| BitStream.BitWriter.WriteBits | internal/transport/codec/bitstream.go:24-29 | … by the low `n` bits of the value, most significant first |
| BitStream.BitWriter.Flush | internal/transport/codec/bitstream.go:31-38 | the bytes are the written bits padded with zeros to a byte boundary |
| BitStream.BitReader.ReadBit | internal/transport/codec/bitstream.go:46-56 | returns and consumes the next bit, fails only at the end of the bytes |
| BitStream.BitReader.ReadBits | internal/transport/codec/bitstream.go:58-71 | returns the number the next `n` bits spell and consumes them, or fails when there are fewer |
| BitStream.UnpackPack | internal/transport/codec/bitstream.go:31-38 | the bits of flushed bytes are the written bits followed by the padding |
| BitStream.PackUnique | internal/transport/codec/bitstream.go:31-38 | flushed bytes are determined by their bits: no other bytes read the same |
| BitStream.PackLength | internal/transport/codec/bitstream.go:31-38 | n bits take the rounded-up n/8 bytes |
| BitStream.TakeWritten | internal/transport/codec/bitstream.go:24-71 | reading n bits after writing n bits of a value returns the value |
| Gorilla.WriteDod | internal/transport/codec/gorilla.go:41-65 | writes exactly the bits of the delta-of-delta code, for every int64 |
| Gorilla.ReadDod | internal/transport/codec/gorilla.go:67-110 | reads a delta-of-delta code off any bits, or fails, as the parser of the code does |
| Gorilla.DodRoundTrip | internal/transport/codec/gorilla.go:41-110 | every int64 is read back from its code whatever follows it: all six tiers are exact and self-delimiting |
| Gorilla.WriteValueXor | internal/transport/codec/gorilla.go:121-151 | writes exactly the bits of the XOR code and leaves the state that the code defines, for every 64-bit pattern |
| Gorilla.ReadValueXor | internal/transport/codec/gorilla.go:153-203 | on arbitrary bits stays in bounds, keeps leading plus trailing zeros at most 63, and returns what the parser of the code says |
| Gorilla.XorRoundTrip | internal/transport/codec/gorilla.go:121-203 | from any shared state, every 64-bit pattern is read back from its code whatever follows, and both window states stay equal |
| Gorilla.WindowRoundTrip | internal/transport/codec/gorilla.go:135-202 | the 5-bit cap on leading zeros, 64 significant bits stored as 0, and window reuse lose nothing |
| Gorilla.XorCost | internal/transport/codec/gorilla.go:121-151 | a repeated value costs one bit; a difference that fits the stored window two and the bits of that window, which stays; any other thirteen and the bits of its own window, which is stored |
| PointStream.PointRoundTrip | internal/transport/codec/stream.go:259-264 | one point, wrapping differences included, goes through both bit streams and leaves equal states |
| PointStream.PointsRoundTrip | internal/transport/codec/stream.go:258-269 | any list of points is read back exactly from the two bit streams |
| PointStream.LastPoint | internal/transport/codec/stream.go:258-269 | the state after a run of points is that of the last one: its time, value and interval |
| PointStream.CostBound | internal/transport/codec/gorilla.go:23-65 | any point costs at most 69 timestamp bits and 77 value bits |
| PointStream.SteadyCost | internal/transport/codec/gorilla.go:23-31 | points at a constant interval cost one timestamp bit each |
| PointStream.KeyframeCost | internal/transport/codec/gorilla.go:23-39 | n points after a fresh keyframe at a constant interval cost the tier length of the period and n-1 bits |
| PointStream.TierLengths | internal/transport/codec/gorilla.go:41-65 | which periods cost 1, 9, 12, 16, 37 or 69 bits |
| ByteCodec.ZigzagValue | internal/transport/codec/util.go:10-13 | the shift-and-xor form is the map 0, -1, 1, -2, … to 0, 1, 2, 3, … |
| ByteCodec.ZigzagRoundTrip | internal/transport/codec/util.go:10-17 | inverse of each other on all 64-bit numbers |
| ByteCodec.UvarintRoundTrip | internal/transport/codec/util.go:19-23 | every uint64 is read back from its varint whatever follows |
| ByteCodec.UvarintExact | internal/transport/codec/stream.go:326-326 | on arbitrary bytes, exactly the numbers of 64 bits are accepted that are spelled by at most ten bytes, up to the first without the high bit |
| ByteCodec.FloatRoundTrip | internal/transport/codec/util.go:25-37 | every 64-bit pattern is read back |
| ByteCodec.BigEndianRoundTrip | internal/transport/codec/util.go:25-29 | big-endian bytes determine the number |
| ByteCodec.ByteReader.ReadUvarint | internal/transport/codec/stream.go:326-326 | reads a varint of at most ten bytes off arbitrary bytes, or fails |
| Labels.SortedPairs | internal/transport/codec/stream.go:58-65 | the pairs of a map in strictly increasing order of their names |
| Labels.SortedPairsRoundTrip | internal/transport/codec/stream.go:58-73 | sorting the attributes and rebuilding the map loses nothing |
| Labels.SeriesKeyInjective | internal/transport/codec/stream.go:44-56 | labels free of the separator bytes share a key only when they are equal |
| Dictionary.Table.Ref | internal/transport/codec/dictionary.go:23-32 | returns the index of the string, interning it on first sight, and moves no other |
| Dictionary.Table.WriteTo | internal/transport/codec/dictionary.go:34-40 | appends the table to the buffer |
| Dictionary.ReadDictionary | internal/transport/codec/dictionary.go:42-66 | reads a table off arbitrary bytes, with both size limits |
| Dictionary.TableRoundTrip | internal/transport/codec/dictionary.go:34-66 | a table within the limits is read back whatever follows |
| Dictionary.RefResolves | internal/transport/codec/dictionary.go:23-40 | a reference written after the table resolves to its string |
| FrameEncoder.FlattenRequest | internal/transport/codec/stream.go:75-130 | the points of the three layers grouped per series key, in order of first sight |
| FrameEncoder.StreamEncoder.Reset | internal/transport/codec/stream.go:142-145 | no state is left: every series starts with a keyframe again |
| FrameEncoder.StreamEncoder.StateFor | internal/transport/codec/stream.go:147-154 | the state of the key, fresh on first sight, shared with no other key |
| FrameEncoder.StreamEncoder.EncodeNumberSeries | internal/transport/codec/stream.go:227-270 | appends the series and moves its state on, or encodes it statelessly beyond the cap |
| FrameEncoder.StreamEncoder.EncodeHistogramSeries | internal/transport/codec/stream.go:272-304 | appends the series and moves its state on, also beyond the cap |
| FrameEncoder.StreamEncoder.EncodeFrame | internal/transport/codec/stream.go:164-225 | returns the frame of the format and leaves the states that the format defines |
| FrameDecoder.DecodeNumberSeries | internal/transport/codec/stream.go:501-573 | decodes arbitrary bytes as the format says, on a copy of the state that is handed over on success |
| FrameDecoder.DecodeHistogramSeries | internal/transport/codec/stream.go:575-672 | likewise for histograms, with all limits |
| FrameDecoder.StreamDecoder.DecodeSeries | internal/transport/codec/stream.go:391-442 | commits the new state of the series only on success |
| FrameDecoder.StreamDecoder.DecodeFrame | internal/transport/codec/stream.go:315-499 | decodes arbitrary bytes as the format says; states committed before a failure stay |
| StreamRoundTrip.HeaderRoundTrip | internal/transport/codec/stream.go:199-216 | a series header is read back, without the temporality of gauges and histograms |
| StreamRoundTrip.NumberRoundTrip | internal/transport/codec/stream.go:230-270 | a number series is read back exactly from mirrored states, keyframe or not |
| StreamRoundTrip.HistPointRead | internal/transport/codec/stream.go:279-303 | what a decoder makes of a histogram point when its state need not agree: times count from its own last time, bounds are its own |
| StreamRoundTrip.HistPointRoundTrip | internal/transport/codec/stream.go:279-303 | a histogram point comes back with time, count, sum, buckets and the bounds of the keyframe |
| StreamRoundTrip.HistsRoundTrip | internal/transport/codec/stream.go:276-304 | a list of histogram points, and the states after it |
| StreamRoundTrip.HistsCarriedExactly | internal/transport/codec/stream.go:276-304 | histogram points survive unchanged exactly when they have no attributes, no minimum and maximum, and the bounds of the keyframe |
| StreamMirror.MirrorStep | internal/transport/codec/stream.go:230-242 | updating both sides with agreeing states keeps the mirror; so does an update of the decoder alone, beyond the cap, which from then on bars histograms of that key |
| StreamMirror.GrowsOnly | internal/transport/codec/stream.go:147-154 | an encoder forgets no series before it is reset |
| StreamMirror.SeriesRoundTrip | internal/transport/codec/stream.go:197-304 | one series of either kind, under a key that may have had the other kind, decodes from mirrored states to mirrored states, also while the cap is being crossed |
| StreamMirror.ListRoundTrip | internal/transport/codec/stream.go:198-223 | so does the whole list of a frame; it is rebuilt as carried, and the decoder then has a state for exactly the keys it had and those in the list |
| StreamMirror.FrameRoundTrip | internal/transport/codec/stream.go:164-225 | a frame decodes to the encoded agent, attributes, time and series, keeps the mirror, and adds exactly its keys to the decoder |
| StreamRequest.FlattenSelects | internal/transport/codec/stream.go:75-130 | flattening keeps the points of every series header, in order, for consistently labelled requests |
| StreamRequest.SeriesAdded | internal/transport/codec/stream.go:444-490 | adding a decoded series to the request adds its points under its header and changes no other |
| StreamRequest.Rebuilds | internal/transport/codec/stream.go:387-499 | rebuilding the three layers never fails on what an encoder sent, and holds exactly the decoded points of every header |
| StreamConnection.BuildDelivers | internal/transport/codec/stream.go:387-499 | the rebuilt request has the same points under the same gauge and sum headers, in order |
| StreamConnection.FrameDelivered | internal/transport/codec/stream.go:164-499 | one frame between mirrored states delivers its request and keeps the mirror |
| StreamConnection.RunDelivered | internal/transport/codec/stream.go:132-499 | from mirrored states, any sequence of requests is delivered, and the decoder gains exactly the keys sent |
| StreamConnection.ConnectionRoundTrip | internal/transport/codec/stream.go:132-499 | over a whole connection, a fresh decoder gets every request with its agent, attributes, time and exactly its gauge and sum points, in order, and its histograms as the format carries them (`StreamHistograms` says how); both sides end mirrored, and the decoder has a state for exactly the keys sent |
| StreamDelivery.FlattensNumber | internal/transport/codec/stream.go:77-130 | flattening loses and invents no gauge or sum point: those under a header are the points of the metrics it describes |
| StreamDelivery.FlattensHist | internal/transport/codec/stream.go:77-130 | nor any histogram |
| StreamDelivery.EverythingArrives | internal/transport/codec/stream.go:132-499 | over a whole connection, in terms of the requests themselves: exactly the gauge and sum points sent arrive, under the same scopes, names, units, descriptions, kinds, temporalities and attributes, and every histogram arrives with its time, count, sum, buckets and the bounds kept for its series |
| StreamConnection.FewKeysCarriable | internal/transport/codec/stream.go:230-238 | below the series cap nothing more is asked than sizes and clean labels: a key may change from gauge to histogram and back, as it does when sampling sets in |
| StreamConnection.OneKindCarriable | internal/transport/codec/stream.go:230-238 | beyond the cap, keys that keep their kind are carried |
| StreamLimits.StaleStatesUnread | internal/transport/codec/stream.go:230-238 | past the series cap, number states still held are never read again: encoders that differ only there write the same frames |
| StreamLimits.MixedKindsBeyondCap | internal/transport/codec/stream.go:230-304 | why kinds matter beyond the cap: after a number point under a key held for histograms, the next histogram of that key decodes without an error, with the right time exactly when the number point had the time of the last histogram |
| StreamLimits.SeriesExceeds | internal/transport/codec/stream.go:230-238 | one series takes a map within the cap beyond it exactly when the map is full and the series is a histogram of a key without a state |
| StreamLimits.EncoderExceedsCap | internal/transport/codec/stream.go:146-155 | over a whole connection, the encoder's map exceeds the cap exactly when at some point it is full and a histogram of a key without a state is sent |
| StreamLimits.HistogramsUncapped | internal/transport/codec/stream.go:272-281 | every histogram key gets a state, so more of them than the cap take the map beyond it |
| StreamLimits.DecoderExceedsCap | internal/transport/codec/stream.go:430-442 | the decoder holds a state for every key that a connection has carried, whatever their number; its map exceeds the cap exactly when they do |
| StreamLimits.NumberStatesBounded | internal/transport/codec/stream.go:21-24 | what the cap does bound: apart from keys of histograms an encoder never holds more states than the cap |
| StreamLimits.KindsMustAgree | internal/transport/codec/stream.go:453-489 | a decoded series can be added to the request exactly when the metric of its name is absent or of its kind |
| StreamLimits.GaugePointOk | internal/transport/codec/stream.go:77-109 | what the round trip asks of a request is met by every clean gauge point of ordinary size |
| StreamLimits.MissingKeyframe | internal/transport/codec/stream.go:228-256 | a series that the encoder has begun goes on with deltas, below the cap or if it is of histograms, and is an error for a decoder that has never seen it |
| StreamCost.SeriesContinues | internal/transport/codec/stream.go:228-269 | a number series that has begun is written without a raw point: its timestamps and values are the next bits of the two streams of its key, whose state moves on by them |
| StreamCost.SeriesBegins | internal/transport/codec/stream.go:242-269 | a new one starts with its first point raw |
| StreamCost.StreamContinues | internal/transport/codec/stream.go:258-269 | so over all frames the streams of a series are those of all its points in one list: splitting points over frames costs no bit |
| StreamCost.ContinuedState | internal/transport/codec/stream.go:258-269 | and its state is that of its last point |
| StreamCost.ContinuedCost | internal/transport/codec/stream.go:228-269 | n points of a series that goes on at its interval with its value take two bits each, rounded up to bytes, and the bytes of the lengths |
| StreamCost.BoundsOnce | internal/transport/codec/stream.go:272-304 | a histogram point that goes on is written without its bounds |
| StreamErrors.FrameWithin | internal/transport/codec/stream.go:315-499 | whatever bytes arrive, accepted or not: the decoder loses no state, creates no more than the limit of series, and keeps no more bounds than the limit; what it accepts has no more attributes, bounds and buckets than the limits |
| StreamErrors.SeriesWithin | internal/transport/codec/stream.go:395-440 | a series that is accepted uses strings of the table and respects the limits on attributes, histogram points, bounds and buckets |
| StreamErrors.TableWithin | internal/transport/codec/dictionary.go:42-67 | a string table that is accepted is within both limits |
| StreamErrors.BadSeries | internal/transport/codec/stream.go:430-442 | behind a series that cannot be decoded the frame is given up, and the states of the series before it stay, as they were committed |
| StreamErrors.MissingLater | internal/transport/codec/stream.go:315-318 | so it is for a frame that goes on with a series that the decoder has not seen |
| StreamHistograms.SeriesBounds | internal/transport/codec/stream.go:272-304 | the series that gives a key its state also gives it its bounds, none if it is not of histograms, and no later series changes them |
| StreamHistograms.ListBounds | internal/transport/codec/stream.go:230-304 | so after any list of series a key has the bounds of the first series that gave it a state |
| StreamHistograms.ConnectionHistograms | internal/transport/codec/stream.go:272-304 | over a whole connection, the server gets under every histogram header the times, counts, sums and buckets of all series that the format merges there, in order of first sight, with the bounds that their key was first stored with |
| StreamHistograms.SurviveExactly | internal/transport/codec/stream.go:272-304 | the histograms under a header come back as they were measured exactly when each has the bounds kept for its key |
| StreamHistograms.ConstantBounds | internal/transport/codec/stream.go:272-276 | constant bounds survive: if every key has one set of bounds, empty where anything but histograms uses it, all histograms of a connection come back with their times, counts, sums, buckets and bounds |
| StreamHistograms.NumberFirst | internal/transport/codec/stream.go:230-304 | where that fails below the cap: once a gauge or a sum is the first to use a key, its histograms come back without bounds for the rest of the connection, and survive exactly when they have none |
| StreamHistograms.HistogramAttributesLost | internal/transport/codec/stream.go:472-489 | no histogram point ever comes back with attributes |
| Connection.WireRoundTrip | internal/transport/quic/client.go:150-172 | a frame is read back from the stream whatever follows, unless it is over the server's limit |
| Connection.PartialFrame | server/main/quic_server.go:257-285 | no proper prefix of a frame yields a frame |
| Connection.LengthRefused | server/main/quic_server.go:257-285 | a length of nothing, or over the limit, is refused as soon as it is read |
| Connection.OtherFrame | server/main/quic_server.go:286-297 | a frame of another codec in between is handed over or ends the connection as its decoder says, and leaves the states of the streams alone |
| Connection.DrainPrefix | server/main/quic_server.go:257-297 | reading any prefix of a sent stream decodes exactly the whole frames in it, in order, and leaves the rest |
| Connection.StepKeeps | internal/pipeline/exporter.go:47-100 | every connect, send, failed send, loss and delivery keeps the invariant of all connections |
| Connection.RunKeeps | internal/pipeline/exporter.go:47-100 | so does every run |
| Connection.Safety | server/main/quic_server.go:249-298 | over all runs, what the server has decoded on a connection is an in-order prefix of what was encoded for it, each request delivered as by the codec |
| Connection.LiveStatesMeet | internal/pipeline/exporter.go:71-97 | over all runs, on a live connection: once the server has read the frames under way, it has kept the connection exactly when all frames on it are within its limit, and then it has every request, nothing left over, and states that mirror the encoder's |
| Connection.AllDrained | server/main/quic_server.go:257-297 | once all bytes are read, no frame is left over |
| Connection.StaysUp | server/main/quic_server.go:260-297 | over all runs, a connection whose frames are all within the limit is never given up: no decoding error ever forces a resynchronization |
| Connection.DrainAccepts | server/main/quic_server.go:257-297 | reading any part of a stream from mirrored states decodes only frames within the limit, and gives up only over one that is not |
| Exporter.Client.SendRaw | internal/transport/quic/client.go:150-172 | appends one whole frame to the stream, or on failure a part of it |
| Exporter.Exporter.ExportBatch | internal/pipeline/exporter.go:47-100 | a batch is exported exactly when it is empty, or can be read and some attempt within the retry limit gets its frame out, on the connection at hand or a new one; only the first attempt can do without dialling. The steps taken are steps of the protocol: failing ones, and then, exactly on success, the frame sent whole |
| Exporter.Exporter.Try | internal/pipeline/exporter.go:72-98 | one attempt: it succeeds exactly when there is a live connection or dialling works and the write does not fail, and leaves no connection otherwise; it reconnects and resets the encoder before encoding |
| Exporter.Exporter.EncodeAndSend | internal/pipeline/exporter.go:81-97 | on failure both the connection and the encoder state are dropped |
| Exporter.Server.Receive | server/main/quic_server.go:257-297 | decodes every frame that a chunk completes, and gives the connection up on the first error |
| WalRecord.EncodeRecord | internal/wal/record.go:19-27 | fills the buffer with flags, length, checksum and payload |
| WalRecord.RecordRoundTrip | internal/wal/reader.go:44-80 | a record is read back exactly when its payload is within the size limit, and is taken for damaged otherwise |
| WalRecord.ChecksumChecked | internal/wal/reader.go:44-75 | bytes in place of a record are taken for one exactly when the length is within the limit and the checksum is that of the payload; the flags are not covered |
| WalRecord.TornRecord | internal/wal/reader.go:44-75 | a record cut at any interior byte is found damaged |
| WalLog.EndIsStart | internal/wal/reader.go:46-53 | the end of a segment and the start of the next denote the same record |
| WalLog.ReaderRefines | internal/wal/reader.go:32-81 | from a position denoting record k, `Next` returns record k and a position denoting k+1, or reports the end after the last one |
| WalLog.ReadAdvances | internal/wal/reader.go:32-81 | the reader only moves forward, and strictly when it returns a record |
| WalReader.Reader.Next | internal/wal/reader.go:32-81 | computes the read function on arbitrary files, damage included |
| Wal.SortedRange | internal/wal/wal.go:302-320 | all segments are listed, in increasing order |
| Wal.Wal.Open | internal/wal/wal.go:55-91 | resumes the last segment, or creates the first one; unless segments are missing in between, the log is then in order |
| Wal.Wal.Append | internal/wal/wal.go:93-117 | appends the record, in a new segment when the active one would grow too large; the segments stay contiguous, and the offset stays the active size |
| Wal.Wal.Stats | internal/wal/wal.go:151-171 | all bytes, and those that the checkpoint has not acknowledged |
| Wal.Wal.Truncate | internal/wal/wal.go:173-199 | cuts the log at the checkpoint and drops later segments, or fails if the segment is gone |
| Wal.Keep | internal/wal/wal.go:225-244 | the first segment kept is the least from which the log fits the limit, or the active one |
| Wal.Wal.EnforceMaxSize | internal/wal/wal.go:201-246 | deletes exactly that shortest prefix, oldest first, and moves the checkpoint past it |
| WalConsumer.WalConsumer.constructor | internal/pipeline/wal.go:42-58 | a new process starts reading at the stored checkpoint, or at the zero one: a restart of the machine |
| WalProperties.AppendRefines | internal/wal/wal.go:93-117 | on the log of records, `Append` adds one record at the end, rotation or not |
| WalProperties.DenotesOnce | internal/wal/wal.go:103-117 | a position in the files denotes one record only |
| WalProperties.AppendKeepsPositions | internal/wal/wal.go:103-110 | every position denotes the same record afterwards |
| WalProperties.AppendKeepsBounds | internal/wal/wal.go:103-110 | every segment stays within the size limit or holds one record |
| WalProperties.AppendKeepsFilled | internal/wal/wal.go:103-110 | and is left only when the next record would not have fitted |
| WalProperties.RemovalKeepsBounds | internal/wal/wal.go:173-246 | so it does when the log is cut back or segments are dropped |
| WalProperties.StatsMeaning | internal/wal/wal.go:151-171 | unacknowledged bytes are the 9-byte headers and payloads of the records not before the checkpoint |
| WalProperties.TruncateRefines | internal/wal/wal.go:173-199 | truncating keeps exactly the records before the position, whatever bytes follow them |
| WalProperties.RetentionRefines | internal/wal/wal.go:206-246 | retention drops whole segments from the front, and the checkpoint then denotes the first record kept and not acknowledged |
| WalProperties.KeptSize | internal/wal/wal.go:206-246 | retention keeps as many of the last segments as fit the limit, one at least, and drops none that would still fit |
| WalProperties.DamagedReads | internal/wal/reader.go:44-75 | a log with damage behind it, torn or otherwise, is read up to its last intact record, and then damage is reported where the intact records end |
| WalProperties.TornDamaged | internal/wal/reader.go:44-75 | a record cut at any interior byte is such damage |
| WalProperties.RepairRestores | internal/pipeline/wal.go:107-117 | repairing restores a log of exactly the intact records, also when the damage is at the start of a new segment, and whatever later segments there are |
| WalDelivery.MovesKeepOrder | internal/pipeline/wal.go:96-145 | every step of the queue keeps its order and checkpoint promises |
| WalDelivery.AppendStep | internal/wal/wal.go:93-117 | appending keeps the meaning of bytes, positions and history |
| WalDelivery.CrashStep | internal/wal/wal.go:103-113 | so does a crash in the middle of an append, at any byte, with or without rotation |
| WalDelivery.ReadStep | internal/pipeline/wal.go:101-124 | so does a read or a repair; and a record is found exactly when one is not acknowledged |
| WalDelivery.RetainStep | internal/pipeline/wal.go:168-188 | so does retention, as long as the stored checkpoint stays within one segment of the log or is replaced |
| WalDelivery.StepRefines | internal/pipeline/wal.go:96-188 | every step on the bytes is a step of a plain queue of records |
| WalDelivery.Delivery | internal/pipeline/wal.go:96-188 | over all runs, from an empty directory: step by step the bytes mean a queue of exactly the records appended, and every step is a step of that queue |
| WalDelivery.ExportsFollow | internal/pipeline/wal.go:96-145 | each export is the record after the previous one, or, after a restart, the one at the checkpoint stored by then; records are skipped only if they have been deleted by that time |
| WalDelivery.FirstExport | internal/pipeline/wal.go:96-145 | the first export is the first record not deleted |
| WalDelivery.NeverResent | internal/wal/checkpoint.go:20-48 | a record that the stored checkpoint has passed is never exported again, by this process or a later one |
| WalDelivery.ExportedAre | internal/pipeline/wal.go:127-137 | what has been exported are, in order, exactly the records acknowledged |
| WalDelivery.SavedRunSane | internal/pipeline/wal.go:165-188 | when checkpoint saves succeed, retention never outruns the stored checkpoint |
| WalDelivery.SavedDelivery | internal/pipeline/wal.go:96-188 | delivery for such runs, with nothing assumed of retention |
| WalDelivery.RestartFindsLog | internal/wal/wal.go:201-246 | after retention, a new process finds its place exactly when the stored checkpoint is at most one segment behind the log |
| WalDelivery.NothingExported | internal/wal/reader.go:88-118 | otherwise it reads the end of the log for ever and exports nothing, whatever is appended |
| WalDelivery.RepairLosesLog | internal/wal/wal.go:173-199 | a repair at a checkpoint whose segment is gone deletes the whole log |
| WalDelivery.NothingSkipped | internal/pipeline/wal.go:96-145 | without retention, whatever crashes, restarts and failures occur: the files hold the log of all records appended, every record before the one that the checkpoint denotes in it was exported, and no export skips a record |
| WalDelivery.ReadFinds | internal/pipeline/wal.go:101-124 | the consumer is never stuck: a read finds the next record exactly when there is one |
| WalDelivery.LostBehindTear | internal/wal/wal.go:55-91 | of a record appended behind a torn one, which `Open` does not repair: the reader reports damage at the tear, unless the bytes happen to complete a record with a matching checksum, and the repair then removes the appended record |
| WalLimits.OversizedLost | internal/pipeline/wal.go:101-117 | a record over the limit is appended like any other; when the consumer gets there, damage is reported, and the repair leaves log and queue as if neither it nor any record appended behind it, in that segment or later ones, had ever been appended |
| WalLimits.SegmentsBounded | internal/wal/wal.go:103-110 | over all runs, with rotation, crashes, repairs and retention: no segment file exceeds the segment size unless it holds one record of legal size, whole or cut short |
| WalLimits.NothingBehind | internal/wal/reader.go:44-75 | a file that begins with a whole record counts as one record exactly when nothing follows it |
| WalConsumer.WalConsumer.Fetch | internal/pipeline/wal.go:101-124 | reads or repairs, one step of the machine |
| WalConsumer.WalConsumer.ReportPressure | internal/pipeline/wal.go:165-200 | enforces the limit by one retention step, and sets the degradation flag by the bytes not acknowledged before it |
| WalConsumer.PressureMeans | internal/pipeline/wal.go:186-196 | the flag goes on when the records not acknowledged take more than 70% of the limit on disk, off when less than 50%, and stays in between |
| WalConsumer.WalConsumer.Drain | internal/pipeline/wal.go:96-145 | takes exactly the steps that the outcomes of exports and saves lead to: retry of the same record, checkpoint only after success |
| WalConsumer.DrainFinishes | internal/pipeline/wal.go:96-145 | the consumer gets through: whatever exports fail in between, with enough successful ones and checkpoints that can be saved it exports and acknowledges every record, repairs the log if it must, and stops at its end |
| WalConsumer.DrainReports | internal/pipeline/wal.go:96-145 | after every export, and at the end of the log, sizes and pressure are looked at |
| Samples.AgentKeyInjective | internal/aggregate/aggregator.go:296-315 | with clean labels the agent keeps different series apart |
| Samples.ServerKeyInjective | server/main/convert.go:164-203 | with clean labels, two points count for one counter of the server exactly when their names and labels are equal, the scope being one of the labels |
| Samples.PointSamples | internal/aggregate/aggregator.go:95-124 | the samples of a metric are its data points, one each, in order, each with the name, unit, description, kind and temporality of the metric |
| Aggregate.SeriesStats.MergeHistogram | internal/aggregate/aggregator.go:204-234 | updates the record as the fold says, restarting on an empty record or other bounds |
| Aggregate.SeriesStats.Build | internal/aggregate/aggregator.go:236-294 | the metric of the summary, for all three kinds |
| Aggregator.Aggregator.SeriesFor | internal/aggregate/aggregator.go:142-157 | the record of the key, created and listed on first sight, shared with no other |
| Aggregator.Aggregator.Add | internal/aggregate/aggregator.go:95-124 | the open window gains exactly the points of the metric; `order` stays a duplicate-free listing of the keys |
| Aggregator.Aggregator.Flush | internal/aggregate/aggregator.go:126-140 | one result per series in order of first arrival, each the summary of the fold over its samples, and an empty window |
| Aggregator.Aggregator.Due | internal/aggregate/aggregator.go:89-93 | the window has been open for its length since its first point |
| AggregateProperties.GaugeFold | internal/aggregate/aggregator.go:165-181 | a gauge record holds count, sum, minimum, maximum, first and last time of all samples |
| AggregateProperties.GaugeSummary | internal/aggregate/aggregator.go:278-291 | a gauge is emitted as a histogram without bounds that carries them, at the time of its first sample |
| AggregateProperties.SumSummary | internal/aggregate/aggregator.go:183-202 | a delta sum is emitted as its total at its first time, a cumulative one as its last sample |
| AggregateProperties.HistFold | internal/aggregate/aggregator.go:204-234 | histograms of one shape add up bucket by bucket |
| AggregateProperties.HistSummary | internal/aggregate/aggregator.go:207-282 | a histogram series is emitted with the labels and temporality of its first sample, at the time of the first one that counts something, with total count, sum and buckets, the greatest maximum and the least minimum that is set |
| AggregateProperties.ChangeForgets | internal/aggregate/aggregator.go:203-218 | a change of bounds starts a histogram series over: the window then holds what came since |
| AggregateProperties.OneResult | internal/aggregate/aggregator.go:126-140 | closing a window emits the summary of one series after the other, in the order of their first samples |
| AggregateProperties.SeriesConserves | internal/aggregate/aggregator.go:236-294 | the summary of a series adds to every server counter what its samples would have added |
| AggregateProperties.MixedTemporality | internal/aggregate/aggregator.go:184-202 | with mixed temporalities, deltas are kept exactly when the window opens with a delta, or they add up to nothing |
| AggregateProperties.Partitioned | internal/aggregate/aggregator.go:97-157 | the samples of a window are those of its series, each counted once |
| AggregateProperties.FlushConserves | internal/aggregate/aggregator.go:126-140 | closing a window changes no counter |
| Sampling.SamplingProcessor.Process | internal/pipeline/sampling.go:58-92 | passing through, switching windows, accumulating and flushing as the sampling function says |
| Sampling.PassesThrough | internal/pipeline/sampling.go:57-66 | when sampling is off, or automatic without pressure, or the window has no length, batches pass through behind what an earlier mode has left, and nothing is held |
| Sampling.EmitsWhenDue | internal/pipeline/sampling.go:68-107 | otherwise a window of the summary length, or the degraded one under pressure, is open; one of another length is emitted first; and the samples of the window go out exactly when the time has reached that of the first one plus its length or a flush was forced, and stay otherwise |
| Sampling.TimeOfPoint | internal/aggregate/aggregator.go:97-124 | the time of a sample is that of the data point it came from |
| Sampling.SamplingProcessor.ForceFlush | internal/pipeline/sampling.go:51-56 | the next aggregating call will emit its window |
| Accumulate.DeltaAccumulator.AddSum | server/main/convert.go:44-49 | adds the delta to the counter of the key, and returns it |
| Accumulate.DeltaAccumulator.AddHistogram | server/main/convert.go:51-71 | adds count, sum and buckets, starting over on other bounds |
| Accumulate.DeltaAccumulator.Convert | server/main/convert.go:107-159 | accumulates every delta sum and bounded histogram of a request, once each, in order |
| Accumulate.CountersAreTotals | server/main/convert.go:44-71 | as long as bounds are constant, every counter is the total of what was received |
| Accumulate.ChangeRestarts | server/main/convert.go:51-60 | after a change of bounds the counters of a histogram are the totals of what was received since |
| Accumulate.BoundlessIgnored | server/main/convert.go:129-141 | histograms that arrive without bounds are never accumulated, whatever they count |
| Downsampling.CallConserves | internal/pipeline/sampling.go:58-92 | what goes out and what is still held are together what came in and what was held |
| Downsampling.ServerKeepsCounters | internal/pipeline/sampling.go:58-92 | for any batches, clock, mode and degradation: what the server has accumulated plus what the aggregator holds is the total of the raw points |
| Log2Slot.Slot | internal/plugin/block/ebpf/bpf/block_io.c:94-128 | the shift ladder returns the bucket (2^(r-1), 2^r] of every 64-bit value, the cap being the overflow bucket |
| Log2Slot.OneBucket | internal/plugin/block/ebpf/tracer.go:25-33 | a value is in exactly one bucket of the bounds |
| Log2Slot.SlotIsCappedCeilLog2 | internal/plugin/sched/ebpf/bpf/sched_lat.c:54-91 | that bucket is the capped ceiling of the binary logarithm, for any cap |
| Assembly.Merged | internal/pipeline/assemble.go:57-73 | the points of the second metric behind those of the first, if they are of one kind |
| Assembly.Assemble | internal/pipeline/assemble.go:10-55 | one entry per scope and one metric per name, in order of first arrival, each merged over the whole batch |
| Assembly.MergedHolds | internal/pipeline/assemble.go:57-77 | a merged metric has unit, description, kind, temporality and monotonicity of the first one, and the points of all metrics of its name and kind, in order of arrival |
| Assembly.Conserved | internal/pipeline/assemble.go:57-73 | no point of a metric is lost exactly when its items carry points of one kind |
| Assembly.AssembledOnce | internal/pipeline/assemble.go:26-53 | scopes and metric names are unique, and every entry is the merged one |
| Assembly.NothingMissing | internal/pipeline/assemble.go:30-49 | every item of the batch has its entry |
| AssemblyConsistent.AssembledConsistent | internal/pipeline/assemble.go:26-53 | whatever the batch, the assembled request has the grouping that the codec round trip needs |
| AssemblyConsistent.FlattenOrder | internal/transport/codec/stream.go:77-109 | flattening makes one series per key, in the order in which the keys first occur |
| AssemblyConserves.RequestConserves | internal/pipeline/assemble.go:14-71 | assembling a batch changes no counter: if the items of each name agree in kind and temporality, the request adds to every counter of the server what the items would have added |
| AssemblyConserves.RequestsKeepCounters | internal/pipeline/sampling.go:41-112 | sampling, assembling and accumulating together: for any calls, clock, modes and flushes, and however the emitted points are cut into requests, what the server has accumulated plus what is held equals the raw totals, as long as no request mixes kinds or temporalities under one name |
| Batch.BatchProcessor.Process | internal/pipeline/batch.go:33-43 | queues the items and returns all pending ones once they make a batch |
| Batch.BatchProcessor.Take | internal/pipeline/batch.go:45-50 | returns all that is pending |
| Batch.BatchProcessor.Requeue | internal/pipeline/batch.go:52-65 | puts the batch back in front, keeping the newest items |
| Batch.StepKeeps | internal/pipeline/pipeline.go:140-156 | every arrival and every tick, delivered or not, keeps the accounts |
| Batch.Accounted | internal/pipeline/batch.go:34-89 | over all runs: delivered then pending items are in order of arrival, every arrival is delivered, pending or dropped exactly once, and the queue is bounded |
| Batch.OnlyExcessDropped | internal/pipeline/batch.go:34-89 | after any run, an arrival drops the oldest of the items then waiting, exactly as many as exceed the limit, and a tick or a batch put back drops none |
| Batch.Releases | internal/pipeline/batch.go:34-50 | an arrival releases all that is kept once that makes a batch and nothing before, a tick releases everything, and what is not delivered comes back |
| Batch.Drive | internal/pipeline/pipeline.go:140-156 | the driver on the queue in place: arrival or tick, then delivery or return of the batch, is one step of the machine |

## Left out

- Snappy, protobuf, QUIC, TLS, the handshake, HTTP to the time-series database, logging, tickers, backoff and jitter: libraries and timing; the models take their outcomes as arguments.
- The stateless codec modes: they pass the whole request to protobuf.
- Several unidirectional streams on one connection: one ordered stream is modelled. The client opens another one when the context of the first has ended, which the server brings about by refusing a length.
- Exporter.Server.Receive: gives the connection up on a length of 0 or over the limit, where the server drops only the stream and keeps connection and decoder; what a client then sends on a new stream is not modelled. A decoding error closes the connection in both.
- FrameDecoder.DecodeNumberSeries: returns an error where a huge point count or block length in damaged bytes makes the original panic while allocating.
- FrameDecoder.StreamDecoder.DecodeFrame: likewise, and it returns an error where the original would dereference a missing branch of a metric of mixed kinds.
- StreamConnection.ConnectionRoundTrip: states nothing about temporality, minimum, maximum and attributes of histograms, because the format does not carry them.
- Connection.Safety: counts a batch as sent when the client wrote it, not when the server got it, as the exporter does; a connection lost later loses what was under way.
- WalDelivery.Delivery: takes appends and reads as atomic steps; the reader's check for a next segment after an end of file, and partially visible writes, are below these steps.
- WalDelivery.StepRefines: takes retention with its checkpoint save as one step; a crash in between is that step with a failed save, followed by a restart. A crash between two deletions is not modelled.
- Wal.Wal.Open: promises a log in order only if no segment is missing in between; segment numbers are unbounded, while file names have eight digits; failing file operations other than the checkpoint save and a missing segment are not modelled.
- The text of the checkpoint file: stored and read as a whole, or not stored.
- Wal.Wal.Append: leaves out the fsync policy and partial writes other than a crash.
- WalReader.Reader.Next: opens files by path and offset; a handle kept open on a deleted file is not part of this model.
- WalConsumer.WalConsumer.ReportPressure: computes the 70% and 50% marks exactly instead of in floating point.
- A bound on the total size over runs: retention is not reached while an export keeps failing, so only the effect of `EnforceMaxSize` is stated.
- Wrap-around of 64-bit counts in the aggregator and the accumulator: counts are unbounded there.
- The lines written to the time-series database (label names, `le` buckets, averages): formatting of what is accumulated.
- AssemblyConserves.RequestsKeepCounters: asks that no request mixes kinds or temporalities under one name, because merging loses points of another kind; the histogram attributes that the codec loses on the way are not restored by it.
- Assembly.Assemble: works on values; that merging changes the first metric of a batch in place, which a retried batch would show, is not modelled.
- Batch.Accounted: follows items, not what failing processors make of them.
- The operator, configuration, plugins reading kernel data, privileges, the state file and generated code: plumbing.
