# A verified model of the messaging client's wire protocol and its validators

This project states, and proves in Dafny 4.11, what six pieces of this repository do:

- **PNG decoding, image diff and crop** (`PngFilter`, `PngChunks`, `PngDecoder`, `ImageDiff`, `ImageCrop`,
  `DiffGate`): the screenshot gate from file bytes to exit code. The decoder is modelled with its mutable
  scanline buffers and its chunk walk, and shown to invert every encoder that follows RFC 2083.
- **The reliable stream** (`PacketCodec`, `ReliableStream`, `ReliableProgress`, `ReliableQuiescence`,
  `ReliableChannels`): the sequence-number, NAK and ACK protocol between two peers, its datagrams byte by byte,
  the fake wire and the pump. Runs are arbitrary: the wire may lose, repeat, delay and reorder.
- **The fallback YAML parser** (`PyText`, `YamlText`, `YamlNesting`, `YamlParser`, `YamlPrinter`): from the
  text's lines to the indentation stack over dictionaries updated in place, equal to a declarative definition
  of nesting and the inverse of a printer.
- **The CMake block matcher and the Apple guard check** (`CMakeBlocks`).
- **The connection registry** (`Registry`): every interleaving of threads that register, unregister and push,
  and the object itself, whose `push` is disturbed by other threads while a writer runs. Its history is one of
  the traces the interleavings have, so the laws about traces are laws about the object.
- **The test client's inbox** (`ClientInbox`): `expect` and `assert_silent` against a reader thread that
  appends at any moment.

`dafny verify dfyconfig.toml` checks everything. State that the sources update in place is modelled in place:
`array` buffers for scanlines, classes with `modifies` clauses for channels, the wire, the registry, the
client and the parser's dictionaries. Each such method is tied to a function of the old state, and the laws are
proved about those functions. `hide` statements only keep definitions out of proofs that do not need them.

Conventions. A byte is an `int` below 256 in the image modules and a `char` in the stream and text modules.
Python exceptions are error values. zlib is a function parameter `inflate`; its only use in the theorems is
that the joined image data inflates to the raw stream. A deadline is the number of loop turns it leaves time
for, an arbitrary input. Nondeterministic assignments (`:= *`) stand for what the code does not decide: losses,
copies, arrivals, timing. Percentages and averages are exact rationals where Python has floats.

## What turned out not to hold

- **A lost final ACK is never made up for** (`server/server/reliable_stream.py:104-108`). A receiver that
  already has a packet does not acknowledge it again, so if the last ACK is lost the sender retransmits for
  ever, and `_pump_until_stable` runs to its limit whatever the wire does: `PumpUntilStable` ensures it for
  every state in which the receiver has everything and no ACK under way covers all that is still held.
  `RoundClearsIff` gives the exact condition for one round: a lossless round empties the sender's buffer if and only if the buffer was empty or the
  receiver still missed something. `LostFinalAcknowledgement` is a two-step run that ends there. Delivery
  itself is unaffected. Nothing else keeps the pump going: from every other reachable state it stops within nine
  rounds if nothing is lost or copied from then on, however the inboxes are reordered.
- **The manual `ack` can lose a payload** (`server/server/reliable_stream.py:54-59`, which no run calls):
  `AcknowledgeSafeIff` says that after forgetting a payload a lossless round delivers everything exactly when
  the receiver has the payload, delivered or buffered, or it was never sent; otherwise no number of rounds
  delivers it. `ForgottenPayloadLost` is a one-step run after which it is lost.
- **A failed push can throw out a live connection** (`server/server/connection_registry.py:43-46`). The
  cleanup removes whatever is registered by then. In every run, `CleanupHitsOtherWriter` finds the cleaning
  push's own lookup and failed call and says exactly when the entry removed is another writer: when the session
  was registered again after that lookup and not written since. `ReconnectLost` is such a run.
- **No list is ever created by the YAML fallback** (`scripts/validate_production_compose.py:55-61` says lists
  are handled; `:94-102` drops the items). `ItemsStoreNothing` states what list items do instead,
  `EmptyDictIff` which keys end up with an empty dict, and `ListBecomesEmptyDict` is such a text.
- **The Apple guard check is one-sided, and unsound for one kind of opener**
  (`scripts/validate_apple_build_path.py:178-188`). Its pattern has no word boundary, so an opener may be the
  end of an `elseif(IOS)`. On well nested texts with literal endifs, `GuardSound` shows that an occurrence that
  passes lies inside the last opener's block if and only if some token follows the opener, as one does behind
  every opener inside an open if; `GuardUnsound` is a text without one. In the other direction
  `GuardRefusesAfterNestedIf` shows that an occurrence inside the block is refused exactly when a nested if was
  closed before it, or an endif stands in the opener itself.
- **Blocks of unclosed openers can cross** (`scripts/validate_apple_build_path.py:106-124`): `BlocksCrossIff` says
  exactly when, for any openers on any text. For openers that hold no token but their own if, as all patterns
  of `_find_blocks` do (`:97-104`), that is when the first is never closed and the second one's own if is the
  last token (`UnclosedBlocksCrossIff`), as in `UnclosedBlocksCross`; on well nested texts it never is
  (`BlocksDoNotCross`).
- **A timed-out `expect` can leave the queue turned** (`scripts/validate_message_fanout.py:93-110`):
  `QuietTimeoutUnchangedIff` says when it does not, `TimeoutTurns` is a call that does.

## Model

| member | source | states |
|---|---|---|
| PngFilter.PaethIsNearest | scripts/validate_desktop_image_diff.py:43-52 | the Paeth predictor is the neighbour nearest to a + b - c, ties going to a, then b (RFC 2083, section 6.6) |
| PngFilter.FiltersCancelRepetition | scripts/validate_desktop_image_diff.py:101-108 | which rows None, Sub, Up and Average reduce to zero, and only those: pins left, upper and rounding in the predictors |
| PngFilter.UnfilterRow | scripts/validate_desktop_image_diff.py:97-113 | the decoded row solves the reconstruction equations, each byte from already decoded neighbours |
| PngFilter.UnfilterMeans | scripts/validate_desktop_image_diff.py:97-113 | for each filter byte, what a decoded byte adds to its scan byte mod 256: nothing, left, up, the rounded-down mean, or the neighbour nearest to left + up - upLeft with the tie order; left and upLeft are 0 in the first pixel |
| PngFilter.UnfilterFilter | scripts/validate_desktop_image_diff.py:97-113 | decoding undoes the encoder's filter on every prefix of every row, for every filter type and pixel size |
| PngFilter.FilterUnfilter | scripts/validate_desktop_image_diff.py:97-113 | re-filtering a decoded row under the same filter type gives the filtered bytes back |
| PngFilter.UnfilterInPlace | scripts/validate_desktop_image_diff.py:97-113 | the in-place loop leaves the decoded row in the buffer, or reports which of the bad filter byte and the short data comes first |
| PngFilter.DecodeFiltered | scripts/validate_desktop_image_diff.py:89-118 | an encoded image decodes to its rows, any filter per row, any bytes after the last row |
| PngFilter.DecodesIff | scripts/validate_desktop_image_diff.py:89-118 | exactly which streams decode: long enough for every row, with a filter byte up to 4 before each row that has samples |
| PngFilter.FilterDecoded | scripts/validate_desktop_image_diff.py:89-118 | whatever stream decodes starts with the encoding of its own rows under its own filter bytes |
| PngChunks.BigEndianRoundTrip | scripts/validate_desktop_image_diff.py:66 | chunk lengths survive serialisation |
| PngChunks.BigEndianReadBack | scripts/validate_desktop_image_diff.py:66 | lengths are read most significant byte first, and injectively |
| PngChunks.HeaderLayout | scripts/validate_desktop_image_diff.py:70-77 | exactly which 13-byte bodies are accepted as image header, and the size and colour type they announce |
| PngChunks.WalkChunks | scripts/validate_desktop_image_diff.py:60-81 | the chunk loop never reads a header out of bounds, ends, and returns what `Walk` defines, errors included |
| PngChunks.WalkSerialised | scripts/validate_desktop_image_diff.py:60-81 | the walk inverts serialisation of every chunk list; bytes after the end marker change nothing |
| PngChunks.AbsorbAnnounced | scripts/validate_desktop_image_diff.py:70-81 | of a chunk list only the header and the joined image data matter: splits and other chunks do not |
| PngChunks.AbsorbMeans | scripts/validate_desktop_image_diff.py:70-81 | every header chunk must parse, the last one counts, and the image data is joined chunk by chunk in order |
| PngChunks.WalkCutShort | scripts/validate_desktop_image_diff.py:60-69 | a file cut within a chunk's length or kind is an error; cut later, the chunk counts with the part of its body that is there |
| PngDecoder.ExpandRow | scripts/validate_desktop_image_diff.py:115-119 | the output loop appends a row, RGB widened |
| PngDecoder.OpaquelyIsWidened | scripts/validate_desktop_image_diff.py:118-119 | widening yields the same pixels in the same order with alpha 255, and is the only way to |
| PngDecoder.ReadScanline | scripts/validate_desktop_image_diff.py:92-113 | one pass of the row loop decodes the next scanline or reports its error |
| PngDecoder.ReadRows | scripts/validate_desktop_image_diff.py:86-121 | the row loop returns the pixels of all rows, or the first error |
| PngDecoder.ReadPng | scripts/validate_desktop_image_diff.py:55-121 | the whole decoder equals `Decode`, and its pictures have four bytes a pixel |
| PngDecoder.DecodedIsValid | scripts/validate_desktop_image_diff.py:121 | every decoded picture has 4 * width * height bytes |
| PngDecoder.PictureMeans | scripts/validate_desktop_image_diff.py:82-121 | every sample of every decoded picture, in flat offsets of stream and picture: what its row's filter byte makes of its byte and of the samples to its left, above and above left, 0 outside the picture; alpha 255 for three channels and decoded for four |
| PngDecoder.FileDecodesIff | scripts/validate_desktop_image_diff.py:55-121 | exactly which files of whole chunks decode: some header chunk, all of them sound, data that inflates, a stream that fits the last header |
| PngDecoder.SignatureNeeded | scripts/validate_desktop_image_diff.py:57-58 | a file without the eight signature bytes is refused as not a PNG |
| PngDecoder.OnePixelFile | scripts/validate_desktop_image_diff.py:55-121 | what a file given byte by byte decodes to |
| PngDecoder.DecodeEncoded | scripts/validate_desktop_image_diff.py:55-121 | the decoder inverts every encoder: any filters, any IDAT split, any other chunks, any bytes after IEND |
| PngDecoder.EncodingIndependence | scripts/validate_desktop_image_diff.py:55-121 | two files of the same opaque picture, colour type 2 or 6, decode to the same image |
| ImageDiff.Measure | scripts/validate_desktop_image_diff.py:128-142 | the pixel loop returns the changed count, the total and the largest delta, or fails where four bytes are not there |
| ImageDiff.DiffImages | scripts/validate_desktop_image_diff.py:124-145 | the result is the summary of the deltas, or the dimension or index error |
| ImageDiff.ZeroIffEqual | scripts/validate_desktop_image_diff.py:124-145 | each measure is zero exactly for equal images |
| ImageDiff.Symmetric | scripts/validate_desktop_image_diff.py:124-145 | the diff does not depend on which image comes first |
| ImageDiff.Triangle | scripts/validate_desktop_image_diff.py:124-145 | each measure satisfies the triangle inequality |
| ImageDiff.ChannelMoved | scripts/validate_desktop_image_diff.py:131-140 | moving one channel of one image away from the other by k adds exactly k to that pixel's delta and to the total, and changes no other pixel's |
| ImageDiff.BlackAgainstWhite | scripts/validate_desktop_image_diff.py:131-145 | clear black against opaque white attains 1020 |
| ImageDiff.LimitsMean | scripts/validate_desktop_image_diff.py:190 | a diff is within the limits exactly when at most so many in a hundred pixels differ, no delta exceeds the channel limit, and the nearest integer to total / pixels, halves to even, is at most the average limit |
| ImageDiff.DefaultLimits | scripts/validate_desktop_image_diff.py:190-212 | the default limits allow one pixel in 5000 to differ, each by at most 16 |
| ImageDiff.DiffBounds | scripts/validate_desktop_image_diff.py:131-142 | changed <= total <= changed * max, and max <= 1020 |
| ImageDiff.RoundsToNearest | scripts/validate_desktop_image_diff.py:145 | the average is rounded to a nearest integer, halves to even |
| ImageDiff.RoundedAverageTest | scripts/validate_desktop_image_diff.py:190 | for the limit 0.5 testing the rounded average is testing the exact one |
| ImageDiff.DefaultAverageNeverDecides | scripts/validate_desktop_image_diff.py:190-212 | under the default limits the average is at most 0.0032 once the other two tests pass, so its test never decides |
| ImageCrop.CropImage | scripts/validate_desktop_reference_map.py:24-36 | the crop loop over flat offsets returns the rectangle's rows, or the error its bounds call for |
| ImageCrop.CropAccepts | scripts/validate_desktop_reference_map.py:24-30 | exactly which rectangles are accepted: not empty and within the picture |
| ImageCrop.CropPixel | scripts/validate_desktop_reference_map.py:31-36 | every byte of a crop, in flat offsets, is the byte at the shifted place in the source |
| ImageCrop.CropSelects | scripts/validate_desktop_reference_map.py:31-36 | every stretch of pixels of a crop is the stretch at the shifted place in the source |
| ImageCrop.CropIsValid | scripts/validate_desktop_reference_map.py:36 | a crop has four bytes for each of its pixels |
| ImageCrop.CropIdentity | scripts/validate_desktop_reference_map.py:24-36 | the full-size crop is the image |
| ImageCrop.CropOfCrop | scripts/validate_desktop_reference_map.py:24-36 | a crop of a crop is one crop at the summed offsets |
| ImageCrop.DeltasOfCrops | scripts/validate_desktop_reference_map.py:31-36 | diffing two images cut to the same rectangle is cutting the diff |
| ImageCrop.CropNeverWorsensDiff | scripts/validate_desktop_reference_map.py:24-36 | no measure of two images cut to the same rectangle exceeds that of the whole images |
| DiffGate.CheckPair | scripts/validate_desktop_image_diff.py:175-197 | a pair passes exactly when both decode, can be compared and exceed no limit |
| DiffGate.WithinMeans | scripts/validate_desktop_image_diff.py:175-197 | a pair is within limits exactly when both files decode, to pictures of the same size, and the pixels themselves meet the three limits |
| DiffGate.Validate | scripts/validate_desktop_image_diff.py:160-202 | exit code 1 exactly when all files are there and some pair is not within limits |
| DiffGate.ReencodingPasses | scripts/validate_desktop_image_diff.py:160-202 | re-encoding a screenshot in any way never trips the gate |
| DiffGate.GateSymmetric | scripts/validate_desktop_image_diff.py:175-197 | the verdict does not depend on which file is the baseline |
| PyText.ReadShownInt | server/server/reliable_stream.py:98-101 | int() reads back every number str() prints |
| PyText.ReadIntMeans | server/server/reliable_stream.py:86-89 | between spaces, int() accepts exactly an optional sign and digits with single underscores between them, and gives each digit its place value in base ten |
| PyText.ShowIntMeans | server/server/reliable_stream.py:47-51 | str() writes the digits of the number by place value in base ten, without leading zeros |
| PacketCodec.ReadShownList | server/server/reliable_stream.py:133-141 | a NAK's number list reads back |
| PacketCodec.ParseEncoded | server/server/reliable_stream.py:51-146 | every datagram a channel emits is read back as the packet it stands for, whatever bytes the payload holds |
| PacketCodec.WireFormat | server/server/reliable_stream.py:47-51 | three datagrams, byte by byte |
| PacketCodec.ParseRelIff | server/server/reliable_stream.py:94-102 | exactly the datagrams read as data: the verb, a number up to the first colon, any payload |
| PacketCodec.ParseControlIff | server/server/reliable_stream.py:73-91 | exactly the datagrams read as an acknowledgement and as a request |
| PacketCodec.ReadListMeans | server/server/reliable_stream.py:137-141 | a request's list field by field: empty fields are skipped, any other must be a number |
| ReliableStream.SenderActs | server/server/reliable_stream.py:45-69 | whatever the sender does, nothing the receiver misses is forgotten: an ACK releases only delivered payloads |
| ReliableStream.ReceiverActs | server/server/reliable_stream.py:73-146 | whatever the receiver hears, what it handed on stays a prefix of the sender's log and its ACKs stay covered |
| ReliableStream.TickCount | server/server/reliable_stream.py:61-69 | a tick sends one packet for each payload held |
| ReliableStream.RetransmitInOrder | server/server/reliable_stream.py:142-146 | a request is answered number by number, in the order asked |
| ReliableStream.RunKeepsInvariant | server/server/reliable_stream.py:24-153 | every run over a losing, repeating, reordering wire keeps both directions' invariants |
| ReliableStream.InOrderExactlyOnce | server/server/reliable_stream.py:24-153 | in every run each side delivers, in order and without repeats, a prefix of what was sent; what is missing is held; nothing unacknowledged means all delivered |
| ReliableProgress.HeardRoundDelivers | server/server/reliable_stream.py:61-69 | once one tick's packets are heard, in any order and mixed with older traffic, everything sent is delivered |
| ReliableProgress.RequestClosesGap | server/server/reliable_stream.py:123-146 | an early packet makes the receiver ask for all it lacks before it, and the answer, in any order, delivers up to that packet |
| ReliableProgress.CompleteReceiverIsSilent | server/server/reliable_stream.py:104-108 | a receiver that has everything answers data with nothing and does not change |
| ReliableProgress.RoundClearsIff | server/server/reliable_stream.py:61-120 | exactly when a lossless round empties the retransmission buffer |
| ReliableProgress.NeverQuiesces | server/server/reliable_stream.py:61-108 | after a lost final ACK no number of lossless rounds empties the buffer |
| ReliableProgress.CompleteReceiver | server/server/reliable_stream.py:73-146 | whatever the wire brings, a receiver that has everything neither advances nor acknowledges |
| ReliableProgress.LostFinalAcknowledgement | server/server/reliable_stream.py:104-120 | a two-step run that ends there, on a lossless wire and on any other |
| ReliableProgress.HeardMissingDelivers | server/server/reliable_stream.py:104-121 | a receiver that hears every payload it missed, in any order and mixed with other traffic, has delivered everything |
| ReliableProgress.ForgottenForGood | server/server/reliable_stream.py:54-69 | a payload forgotten before the receiver has it never arrives |
| ReliableProgress.AcknowledgeSafeIff | server/server/reliable_stream.py:54-59 | after forgetting a payload by hand, a lossless round delivers everything exactly when the receiver has it or it was never sent; otherwise no number of rounds delivers it |
| ReliableProgress.ForgottenPayloadLost | server/server/reliable_stream.py:54-59 | a run in which the payload is lost |
| ReliableQuiescence.RequestsAnswered | server/server/reliable_stream.py:123-146 | the answers to requests bring, with any payload, all the requester misses below it |
| ReliableQuiescence.RequestsStale | server/server/reliable_stream.py:104-135 | requests made while hearing such answers name only payloads delivered by the end of it |
| ReliableQuiescence.DrainedFed | scripts/validate_reliable_stream.py:58-62 | a drain that loses nothing leaves nobody starving: whoever becomes complete acknowledges everything |
| ReliableQuiescence.SettlingDrained | scripts/validate_reliable_stream.py:58-64 | at most four drain rounds in a row find something queued |
| ReliableQuiescence.DrainCalms | scripts/validate_reliable_stream.py:58-64 | each drain round is one round closer to quiescence |
| ReliableQuiescence.IdleCalms | scripts/validate_reliable_stream.py:65-69 | a tick on an idle wire either starts the last rounds or finds nothing held on either side |
| ReliableChannels.Link.Send | scripts/validate_reliable_stream.py:38-46 | a send queues, copies or drops the packet; nothing else appears or vanishes |
| ReliableChannels.Link.Take | scripts/validate_reliable_stream.py:59-62 | popping the inbox yields its front, a packet that was sent |
| ReliableChannels.Link.Reorder | scripts/validate_reliable_stream.py:55-57 | any permutation of the inbox keeps the books balanced |
| ReliableChannels.ReliableChannel.Send | server/server/reliable_stream.py:47-52 | one send event: numbered, logged, held, put on the wire |
| ReliableChannels.ReliableChannel.Acknowledge | server/server/reliable_stream.py:54-59 | afterwards a lossless round delivers everything to a peer in step exactly when it has the payload, or it was never sent |
| ReliableChannels.ReliableChannel.TickRetransmit | server/server/reliable_stream.py:61-69 | one tick event: everything held goes out in order, and the count is the number of packets sent |
| ReliableChannels.ReliableChannel.Ingest | server/server/reliable_stream.py:73-146 | one receive event, replies in order, for any bytes; fields that are not ASCII numbers are ignored |
| ReliableChannels.ReliableChannel.IngestRel | server/server/reliable_stream.py:104-135 | duplicate, next or early packet: the new state and the reply |
| ReliableChannels.ReliableChannel.DrainBuffered | server/server/reliable_stream.py:115-118 | the loop delivers exactly the payloads that have become contiguous |
| ReliableChannels.ReliableChannel.Resend | server/server/reliable_stream.py:142-146 | what is still held of the numbers asked for goes out, in that order |
| ReliableChannels.ReliableChannel.PopDelivered | server/server/reliable_stream.py:150-153 | one pop event: the delivered payloads since the last call |
| ReliableChannels.PumpUntilStable | scripts/validate_reliable_stream.py:49-70 | at most max_rounds rounds; returning early means both inboxes empty, nothing unacknowledged, all delivered in order, whatever was lost; all max_rounds once a final ACK is lost; otherwise at most nine over a lossless wire |
| ReliableChannels.Transfer | scripts/validate_reliable_stream.py:73-175 | what comes out of a transfer is a prefix of what went in, all of it if the pump stopped early, as it does within nine rounds over a lossless wire |
| PyText.SplitJoined | scripts/validate_production_compose.py:81 | splitting rows joined with any line break gives the rows back |
| PyText.SplitLast | scripts/validate_production_compose.py:81 | text without a break is one row, empty text none |
| PyText.StripMeans | scripts/validate_production_compose.py:66 | stripping takes away all space at both ends and nothing else |
| YamlText.IndentedLine | scripts/validate_production_compose.py:83-87 | leading spaces set a line's indent and nothing else |
| YamlText.BlankSkipped | scripts/validate_production_compose.py:83-85 | rows with nothing before the comment are skipped |
| YamlText.CommentDropped | scripts/validate_production_compose.py:83 | whatever follows the first hash of a row is dropped |
| YamlText.BodyMeans | scripts/validate_production_compose.py:94-124 | what a line says: an item behind `- `, a key up to the first colon with nothing or a value behind it, or nothing |
| YamlText.CoerceIff | scripts/validate_production_compose.py:65-79 | exactly what a value is stored as: quoted text, of either kind, without its quotes, true/yes/false/no in any case as booleans, numbers as numbers, and any other text as that very text |
| YamlNesting.LastWriterWins | scripts/validate_production_compose.py:113-128 | a mapping holds a key exactly when some line wrote it there, with the last such line's value |
| YamlNesting.SameTree | scripts/validate_production_compose.py:89-128 | the tree depends on the indents only through how they compare |
| YamlNesting.EmptyDictIff | scripts/validate_production_compose.py:113-128 | a mapping ends up empty exactly when no line stores anything in it |
| YamlNesting.ItemsStoreNothing | scripts/validate_production_compose.py:94-111 | list items leave no trace in the result |
| YamlPrinter.ListBecomesEmptyDict | scripts/validate_production_compose.py:94-124 | the text `k:` followed by an item ends up as an empty dict under `k` |
| YamlParser.PopTo | scripts/validate_production_compose.py:89-92 | popping leaves exactly the mappings that enclose the line, its parent on top |
| YamlParser.StoreLine | scripts/validate_production_compose.py:89-128 | the loop body keeps the objects and the stack in step with the lines read |
| YamlParser.ParseMinimalYaml | scripts/validate_production_compose.py:55-134 | for any text, the dictionaries built in place denote the declarative nesting of its lines; all objects are dicts |
| YamlParser.SpineIncreases | scripts/validate_production_compose.py:63-92 | the stack's indents strictly increase from the root's -1 |
| YamlParser.StackIsPath | scripts/validate_production_compose.py:113-124 | the stack is a path from the root: each dict holds the next under the key that opened it |
| YamlPrinter.CoerceShown | scripts/validate_production_compose.py:65-79 | double-quoted strings, integers and booleans are read back |
| YamlPrinter.ShownGood | scripts/validate_production_compose.py:65-79 | every value that fits in a row has a writing |
| YamlPrinter.PrintParse | scripts/validate_production_compose.py:55-134 | printing any mapping with two-space indents and any line break, each value quoted either way, plain or as any word or number that stands for it, and parsing the text, gives its tree back |
| YamlPrinter.ReindentSameTree | scripts/validate_production_compose.py:86-92 | any strictly increasing change of indents leaves the tree unchanged |
| YamlPrinter.BlanksSameTree | scripts/validate_production_compose.py:83-85 | blank and comment rows anywhere change nothing |
| CMakeBlocks.ScanBlock | scripts/validate_apple_build_path.py:111-122 | the counting loop ends on every text and stops where `BlockEnd` says |
| CMakeBlocks.FindBlocks | scripts/validate_apple_build_path.py:106-124 | one block per opener match, pattern by pattern |
| CMakeBlocks.BlockIsMatching | scripts/validate_apple_build_path.py:106-124 | on a well nested text an opener's block runs to its own matching endif |
| CMakeBlocks.BlockCloses | scripts/validate_apple_build_path.py:106-124 | that endif exists and is unique |
| CMakeBlocks.NestedIffGrammar | scripts/validate_apple_build_path.py:111-122 | the depth count decides exactly the grammar of nested blocks |
| CMakeBlocks.BlocksCrossIff | scripts/validate_apple_build_path.py:106-124 | on any text, exactly when two blocks cross: the first stops at a token within the second opener |
| CMakeBlocks.UnclosedBlocksCrossIff | scripts/validate_apple_build_path.py:97-124 | for the patterns in use: the first opener is never closed and the second one's own if is the last token |
| CMakeBlocks.BlocksDoNotCross | scripts/validate_apple_build_path.py:106-124 | on a well nested text two blocks are disjoint or one contains the other |
| CMakeBlocks.UnclosedBlocksCross | scripts/validate_apple_build_path.py:106-124 | a text whose blocks cross: two openers, neither closed |
| CMakeBlocks.CheckGuards | scripts/validate_apple_build_path.py:178-188 | the check passes exactly when every occurrence does |
| CMakeBlocks.LastOpenerMeans | scripts/validate_apple_build_path.py:181-183 | over opener matches in order, the greatest start among those ending by the occurrence, -1 exactly when there is none |
| CMakeBlocks.NoOpenerRefused | scripts/validate_apple_build_path.py:181-184 | an occurrence with no Apple opener before it never passes, on any text |
| CMakeBlocks.GuardIff | scripts/validate_apple_build_path.py:178-184 | exactly which occurrences pass, on any text with literal endifs: those with an Apple opener before them and no endif since the start of the last one |
| CMakeBlocks.GuardMeans | scripts/validate_apple_build_path.py:178-188 | on any text with literal endifs, an occurrence passes exactly when no endif lies between the start of the last Apple opener and it |
| CMakeBlocks.GuardExact | scripts/validate_apple_build_path.py:174-188 | for every Apple opener of a well nested text: with a token behind it, passing is lying in its block with no endif since its start; with none, lying behind it with no endif in it |
| CMakeBlocks.GuardSound | scripts/validate_apple_build_path.py:174-188 | a passing occurrence lies inside the last Apple opener's block if and only if a token follows the opener; inside an open if that block ends at the matching endif |
| CMakeBlocks.OwnIsOpen | scripts/validate_apple_build_path.py:174-177 | an opener with an if token of its own is inside an open if |
| CMakeBlocks.GuardUnsound | scripts/validate_apple_build_path.py:174-188 | a text on which a passing occurrence lies outside the block |
| CMakeBlocks.GuardRefusesAfterNestedIf | scripts/validate_apple_build_path.py:178-188 | on any text with literal endifs, an occurrence inside the block is refused exactly when a nested if was opened and closed before it, or an endif stands in the opener |
| CMakeBlocks.GuardRefusesOne | scripts/validate_apple_build_path.py:178-188 | a text where it refuses an occurrence inside the block |
| Registry.EntryIsLastRegistration | server/server/connection_registry.py:23-46 | a session's entry is w exactly when the last write to it registered w |
| Registry.ActiveIffRegistered | server/server/connection_registry.py:48-50 | a session is active exactly when the last write to it was a registration |
| Registry.EmptyIdNeverKey | server/server/connection_registry.py:24-31 | the empty id is never a key |
| Registry.RunKeepsInvariant | server/server/connection_registry.py:19-50 | every interleaving of lock sections and writer calls keeps the registry's invariants and only adds to its history |
| Registry.EveryRunIsSequential | server/server/connection_registry.py:19-50 | every interleaving is a sequential execution of its effects: a push calls at most the one writer its own lookup found, and cleans up only after its own failed call |
| Registry.RunsAreLegalTraces | server/server/connection_registry.py:19-50 | the sequential executions are exactly the traces the interleavings have |
| Registry.WritersRunUnlocked | server/server/connection_registry.py:36-45 | at most one thread is under the lock, and none inside a writer call |
| Registry.CleanupFollows | server/server/connection_registry.py:35-46 | a cleanup follows its thread's own failed call, and that its own lookup |
| Registry.CleanupHitsOtherWriter | server/server/connection_registry.py:43-46 | in every run, exactly when a failed push's cleanup removes another writer than the one that failed |
| Registry.ReconnectLost | server/server/connection_registry.py:41-46 | a run in which a reconnect loses its entry that way |
| Registry.ConnectionRegistry.Register | server/server/connection_registry.py:23-27 | adds one registration to the history the table replays, the empty id ignored |
| Registry.ConnectionRegistry.Unregister | server/server/connection_registry.py:29-33 | adds one removal to the history, the empty id ignored |
| Registry.ConnectionRegistry.Push | server/server/connection_registry.py:35-46 | whatever other threads do while the writer runs, the push's own effects are a lookup, a call of the writer found and a cleanup if it raised; the table stays the replay of all effects |
| Registry.ConnectionRegistry.ActiveSessions | server/server/connection_registry.py:48-50 | the sessions whose last write was a registration |
| ClientInbox.Client.Get | scripts/validate_message_fanout.py:97-100 | the front of the queue after arrivals, or nothing when it stays empty |
| ClientInbox.Client.Collect | scripts/validate_message_fanout.py:90-107 | frames are taken in order, none stashed is wanted, the one returned is; it stops short of its deadline only at an empty queue |
| ClientInbox.Client.PutBack | scripts/validate_message_fanout.py:108-110 | putting the stash back, arrivals in between, keeps all frames and the order of wanted ones |
| ClientInbox.Client.Expect | scripts/validate_message_fanout.py:83-114 | returns the first wanted frame in arrival order, with the id and type asked for, and keeps the others; without one, either as many unwanted frames were looked at as the deadline allows, or none of those queued has that id and type; every interleaving with the reader |
| ClientInbox.Client.ExpectSeveral | scripts/validate_message_fanout.py:276-280 | calls with the same arguments return the first wanted frames in arrival order; they stop short only when those queued at the start are all returned, or a deadline allows no more than unwanted frames |
| ClientInbox.Client.AssertSilent | scripts/validate_message_fanout.py:116-131 | success keeps all frames, turns a quiet queue, and after enough turns no initial frame was forbidden; failure consumes one forbidden frame |
| ClientInbox.ScanTurns | scripts/validate_message_fanout.py:90-110 | where a call on a quiet queue leaves the frames it passed over |
| ClientInbox.ScanNoneIff | scripts/validate_message_fanout.py:90-107 | a call on a quiet queue times out exactly when none of the frames it has time for is wanted |
| ClientInbox.QuietTimeoutUnchangedIff | scripts/validate_message_fanout.py:93-110 | exactly when a timeout leaves a quiet queue unchanged: when turning it by the frames looked at does |
| ClientInbox.TimeoutTurns | scripts/validate_message_fanout.py:93-110 | a timed-out call that leaves the queue turned |

## Left out

- zlib, CRC checks, interlacing, palettes and bit depths other than 8: the decoder ignores or rejects them, or calls a library.
- Floating point: changed percentage and average delta are exact rationals, so comparisons within a rounding error of a limit are not modelled.
- `update_baseline`, argument parsing, printing, the strict-mode environment switches and the JSON map of `validate_desktop_reference_map.py`: file plumbing around the modelled calls.
- Unicode in text: digits and case folding are ASCII, so a number written in other digits reads as text; int()'s limit on the number of digits is not modelled.
- Key order of Python dicts and lists of keys: dictionaries are maps, `active_sessions` a set. The order of retransmissions is modelled.
- ReliableChannels.Link.Send: the drop callback may copy only the packet being sent and only into the same inbox, as the duplicate scenario does.
- ReliableChannels.PumpUntilStable: a reorder callback that returns a new list, so that the closures keep writing to the old one, is not modelled; any permutation in place is, whatever it depends on.
- ReliableChannels.ReliableChannel.Acknowledge: the manual `ack`, which nothing calls, is not an event of the runs.
- CMakeBlocks: regex matching is not modelled; the tokens and opener matches of a text are given with their positions, in order. That a match is not empty and that no token straddles its end is stated where it is needed; both follow from the regexes, as every opener ends at its first closing parenthesis.
- CMakeBlocks.BlocksDoNotCross: for openers with no token in them but their own if, which all patterns of `_find_blocks` are; `BlocksCrossIff` covers any other.
- CMakeBlocks.UnclosedBlocksCrossIff: for such openers too, as are `BlockIsMatching` and `OwnIsOpen`.
- Registry: writers are identities and a raised exception is a step of the calling thread; the message passed on, and a writer that itself calls the registry, are not modelled.
- ClientInbox: sockets, JSON decoding and the reader's exit on errors; the reader is arbitrary arrivals.
- The rest of the server and the desktop, mobile, packaging and CI validators: services over external state, or substring checks with no algorithm.
