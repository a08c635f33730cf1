# Verification of the LangnOs vendored protocol cores

The application talks to Firebase through two vendored libraries whose correctness matters: nanopb, a
Protocol Buffers codec driven by field descriptors, and BoringSSL's TLS and DTLS. This project models their
hard parts in Dafny and proves what they are for. `dafny verify dfyconfig.toml` checks all of it.

## What is modelled

**The codec** (`Pb*.dfy`). A message descriptor is a tree of fields and a struct a sequence of typed slots.
`PbEncode` and `PbDecode` say on values what the encoder writes and what the decoder does with any bytes,
down to over-long varints, zero keys, fixed counts, unions and the 64-bit map of required fields.
`PbOutput` and `PbInput` are the stream code itself, with its loops, substreams and two-pass submessages;
every method is proved to do exactly what the functions say. `PbMemory` is what they see of raw memory. On the functions rest the round trip
(`PbRoundTrip`, `PbObserve`), the merge law and the transparency of unknown fields (`PbMerge`, `PbMergeFixed`), what happens to a field that
arrives again (`PbReplace`), the wire format that other readers see (`PbWire`, `PbScalars`), what the defaults leave
behind (`PbSilent`), the circular
iterator and the required-field check (`PbIterator`), and the preservation of struct layout (`PbLayout`).
The build defines PB_FIELD_32BIT, so sizes and counts are 32 bits wide.

**DTLS handshake transport** (`Dtls*.dfy`). `DtlsReceiver` is the ring of messages under reassembly over the
in-place buffers and bitmaps of `DtlsReassembly`; `DtlsReceive` says on values what it does. `DtlsSender` cuts
a flight into packets with rollback on refused writes; `DtlsFlight` says how its records tile the flight.
`DtlsEndToEnd` and `DtlsNetwork` put a network between them that loses, repeats and reorders
(RFC 6347, sections 4.2.2 to 4.2.4), and `DtlsTwoEpochs` lets a flight go on under the next cipher;
`DtlsAnySender` is the receiver against any sender. `DtlsReplay` and `DtlsOpenRecord` are the replay window
(section 4.1.2.6), `DtlsRecordNumbers` and `DtlsRecordWriter` the record numbers (section 4.1).
SSL_MAX_HANDSHAKE_FLIGHT is a parameter N with 1 <= N < 256.

**TLS 1.0-1.2 handshake** (`TlsMachines` and after). Both machines step by step as in the source, each against
any peer (`TlsRunShape` for events, `TlsTranscript` for what was hashed), and together over FIFO channels with partial flushes (`TlsScript`, `TlsClientSteps`,
`TlsServerSteps`, `TlsJoint`), full and abbreviated, following RFC 5246 sections 7.3, 7.4.1.3 and 7.4.9 and
RFC 5077 section 3. `TlsRunHandshake` is the driver around either machine. The proof rests on one relation: the
handshake is a list of owned slots, both sides stand at slots of the same list, and what is under way is
exactly the stretch between them.

**The TLS write path** (`TlsWriter`), **the server's cipher choice** (`TlsCipherChoice`) and **reference
counts** (`Refcount`) under every interleaving of their compare-and-swap loops.

## Where the obvious claim is false

The code is modelled as it is. Each of these has its exact condition and an input that shows it.

- The 32-bit varint decoder accepts more than uint32 and sign-extended int32, and wraps its bit position (`PbVarint32Any.Dec32OnAnyBytes`, `PbVarint32.Dec32AcceptsMore`, `PbVarint32Any.PositionWraps`).
- The round trip loses zeros of proto3 fields with defaults, and fixed-count arrays that start with 0 (`PbObserve.RoundTripExact`, `PbObserve.DefaultIsLost`, `PbObserve.FixedCountIsLost`, `PbObserve.FirstMemberDecides`).
- Decoding two messages joined is not decoding one and then the other if something lies behind a zero key of the first, or if the fixed-count array that the first leaves off with is the first one the second sends (`PbMergeFixed.MergeIff`, `PbMerge.ZeroKeyExample`, `PbMergeFixed.CollisionExample`).
- Tag 0 matches an empty descriptor, and only that (`PbMerge.EmptyDescriptorTagZero`, `PbMerge.UnknownSkipped`).
- A DTLS fragment exactly N ahead is an error, although the comment says that such fragments are ignored (`DtlsReceive.WindowEdge`).
- DTLS record numbers repeat after 2^48 records of one epoch or 2^16 epochs (`DtlsRecordNumbers.UniqueNumbers`, `DtlsRecordNumbers.WrapRepeats`, `DtlsRecordNumbers.EpochWrapRepeats`).
- Exactly one decrement returns 1 only if nobody increments a count that is already zero (`Refcount.OneLastReference`, `Refcount.RevivedCountEndsTwice`).

`TlsCipherChoice` states what the choice needs of the group flags, which the list builder provides: the last
group closed, or more exactly that an open one holds nothing new (`TlsCipherChoice.NoneExact`).

## Model

| member | source | states |
|---|---|---|
| PbVarint.EncVarintLen | LangnOs/Pods/nanopb/pb_encode.c:574-594 | k groups suffice exactly for the values below 128^k, so the varint is the shortest |
| PbVarint.VarintRoundTrip | LangnOs/Pods/nanopb/pb_decode.c:250-271 | the 64-bit decoder inverts the encoder on every uint64, leaves what follows unread, and no encoding is longer than ten bytes |
| PbVarint.ZigZagRoundTrip | LangnOs/Pods/nanopb/pb_decode.c:1240-1252 | zigzag maps every int64 into uint64 and back to itself |
| PbVarint.Le32RoundTrip | LangnOs/Pods/nanopb/pb_encode.c:607-617 | four little-endian bytes give back every uint32 |
| PbVarint.Le64RoundTrip | LangnOs/Pods/nanopb/pb_encode.c:619-633 | eight little-endian bytes give back every uint64 |
| PbVarint32.Dec32Exact | LangnOs/Pods/nanopb/pb_decode.c:182-242 | for the encoding of every uint64, exactly when the 32-bit decoder accepts it, and that it then yields the low 32 bits |
| PbVarint32.Dec32BelowTwo63 | LangnOs/Pods/nanopb/pb_decode.c:182-242 | below 2^63 the 32-bit decoder accepts exactly the values below 2^32, and returns them |
| PbVarint32.Dec32SignExtended | LangnOs/Pods/nanopb/pb_decode.c:182-242 | every negative int32, sign-extended to 64 bits, decodes to its low 32 bits |
| PbVarint32.Dec32AcceptsMore | LangnOs/Pods/nanopb/pb_decode.c:216-237 | the concrete value 2^63 + 2^31 is accepted, as 2^31 |
| PbVarint32Any.Dec32OnAnyBytes | LangnOs/Pods/nanopb/pb_decode.c:182-242 | for any bytes, over-long ones included: exactly when the 32-bit decoder accepts them, how many it reads, and which groups set each bit of its result |
| PbVarint32Any.PositionWraps | LangnOs/Pods/nanopb/pb_decode.c:205-231 | the bit position is kept in eight bits: a 38th group is or-ed in at bit 3, and the concrete encoding of 1, empty groups and 1 reads as 9 |
| PbScalars.DecVarintOnAnyBytes | LangnOs/Pods/nanopb/pb_decode.c:250-271 | for any bytes: the 64-bit decoder accepts up to ten groups, bit i of its result is bit i mod 7 of group i div 7, and what lies above bit 63 is dropped |
| PbScalars.ZigZagValue | LangnOs/Pods/nanopb/pb_encode.c:596-605 | n maps to 2n or -2n - 1 |
| PbScalars.IntOnAnyVarint | LangnOs/Pods/nanopb/pb_decode.c:1289-1324 | an int32 or narrower field takes any varint as a 32-bit word, an int64 field as a 64-bit word, and refuses exactly what does not fit its member |
| PbScalars.UnsignedOnAnyVarint | LangnOs/Pods/nanopb/pb_decode.c:1326-1348 | an unsigned field refuses exactly what does not fit its member |
| PbScalars.ZigZagOnAnyVarint | LangnOs/Pods/nanopb/pb_decode.c:1350-1372 | a zigzag field refuses exactly what does not fit its member |
| PbScalars.BytesOnAnyChunk | LangnOs/Pods/nanopb/pb_decode.c:1391-1505 | which lengths fit a byte, string or fixed-length field, and what its buffer holds afterwards; no bytes clear a fixed-length field |
| PbScalars.FixedBytesAre | LangnOs/Pods/nanopb/pb_encode.c:607-658 | fixed32 and fixed64 fields byte by byte, key included, little-endian |
| PbScalars.KnownBytes | LangnOs/Pods/nanopb/pb_encode.c:574-680 | varint, zigzag and string fields byte by byte |
| PbScalars.PackedBytes | LangnOs/Pods/nanopb/pb_encode.c:137-185 | a packed array byte by byte |
| PbScalars.OrderBytes | LangnOs/Pods/nanopb/pb_encode.c:494-516 | two fields byte by byte, in the order of the descriptor and not of their tags |
| PbScalars.KnownSkips | LangnOs/Pods/nanopb/pb_decode.c:316-326 | each wire type is skipped by its own width |
| PbScalars.ZeroTestExact | LangnOs/Pods/nanopb/pb_encode.c:243-303 | a scalar, string or byte field is taken for zero exactly if it shows what zeroed memory shows, a fixed-length one only if its length is 0 |
| PbScalars.OverfullRefused | LangnOs/Pods/nanopb/pb_encode.c:121-135 | a count beyond the array or a size beyond the buffer is refused |
| PbWire.SkipsPayload | LangnOs/Pods/nanopb/pb_decode.c:316-326 | a payload of each of the four forms is skipped to its last byte, whatever follows |
| PbWire.SkippedIsPayload | LangnOs/Pods/nanopb/pb_decode.c:316-326 | what is skipped was a payload of that wire type |
| PbWire.TaggedIsField | LangnOs/Pods/nanopb/pb_encode.c:641-672 | what is written for a value is one field of the format: tag and wire type of its type as a key, and a payload of that form |
| PbWire.OthersIgnore | LangnOs/Pods/nanopb/pb_encode.c:494-516 | a reader whose descriptor has none of the tags passes over all that an encoder writes for a message, wherever it is inserted |
| PbWire.KeyOfField | LangnOs/Pods/nanopb/pb_decode.c:300-314 | every key but 0 is a tag and a wire type, even with tag 0 |
| PbWellFormed.SetDefaultsShape | LangnOs/Pods/nanopb/pb_decode.c:812-895 | after the defaults are set a struct keeps its layout and is fresh at every depth |
| PbRoundTrip.LeafRoundTrip | LangnOs/Pods/nanopb/pb_decode.c:1289-1505 | every scalar, string and byte field reads back what its encoder wrote, whatever follows |
| PbRoundTrip.FindUnique | LangnOs/Pods/nanopb/pb_common.c:78-95 | with distinct tags the circular search finds the field from every position |
| PbRoundTrip.PackedRoundTrip | LangnOs/Pods/nanopb/pb_encode.c:137-185 | a packed array reads back element by element |
| PbRoundTrip.RepeatedRoundTrip | LangnOs/Pods/nanopb/pb_encode.c:188-211 | an array that cannot be packed is read by one turn of the loop for each element |
| PbRoundTrip.SingleRoundTrip | LangnOs/Pods/nanopb/pb_encode.c:307-392 | a required, present optional or selected union field is read by one turn of the loop |
| PbRoundTrip.FieldRoundTrip | LangnOs/Pods/nanopb/pb_decode.c:401-475 | the encoding of any field is consumed by the loop exactly, and only its slot changes |
| PbRoundTrip.ValRoundTrip | LangnOs/Pods/nanopb/pb_decode.c:1463-1485 | a value, down to nested submessages, is read back from its length-delimited encoding |
| PbRoundTrip.LoopRoundTrip | LangnOs/Pods/nanopb/pb_decode.c:919-1010 | from any field on, the loop reads the rest of the encoding to its end and every required field has been seen |
| PbRoundTrip.MsgRoundTrip | LangnOs/Pods/nanopb/pb_decode.c:901-1049 | pb_decode_noinit accepts the whole encoding on a fresh struct and lands every field |
| PbRoundTrip.RoundTrip | LangnOs/Pods/nanopb/pb_decode.c:1051-1063 | pb_decode of what pb_encode wrote succeeds, consumes every byte, and lands every field on the defaults |
| PbObserve.Encodes | LangnOs/Pods/nanopb/pb_encode.c:494-516 | every message whose contents are in range can be encoded |
| PbObserve.MsgSame | LangnOs/Pods/nanopb/pb_encode.c:215-303 | what lands is the message that was encoded if and only if no field that the zero test drops differs from its default; the test of a fixed-count array reads the first four bytes of the array, whatever its elements are |
| PbObserve.LosslessAlways | LangnOs/Pods/nanopb/pb_encode.c:215-303 | nothing is lost when proto3 singular fields have no defaults and no fixed-count array lies under one of them |
| PbObserve.RoundTripExact | LangnOs/Pods/nanopb/pb_encode.c:307-392 | for every descriptor in which no count word lies outside its array or, where it is tested, on padding, and for every message: the round trip succeeds, consumes every byte, and yields the same message exactly when the message is lossless |
| PbObserve.RoundTripSame | LangnOs/Pods/nanopb/pb_encode.c:494-516 | for descriptors whose zero tests are exact the round trip yields the same message for all values |
| PbObserve.DefaultIsLost | LangnOs/Pods/nanopb/pb_encode.c:229-244 | a zero in a proto3 singular field with default 5 comes back as 5 |
| PbObserve.FixedCountIsLost | LangnOs/Pods/nanopb/pb_encode.c:225-228 | a fixed-count array [0, y] under a proto3 singular submessage is not written at all |
| PbObserve.FirstMemberDecides | LangnOs/Pods/nanopb/pb_encode.c:225-228 | with submessages for elements it is the first member of the first of them that decides: the array is written if and only if that member is not zero |
| PbSilent.DefaultsAreSilent | LangnOs/Pods/nanopb/pb_encode.c:215-303 | a struct that was only set to its defaults is written as no bytes, if no field is required, of a fixed count, or singular with a value that cannot be zero |
| PbSilent.DefaultsClearTheCount | LangnOs/Pods/nanopb/pb_decode.c:838-846 | after the defaults pass the zero test takes every fixed-count array for empty |
| PbSilent.ClearKeepsHigh | LangnOs/Pods/nanopb/pb_decode.c:838-846 | clearing the count word leaves the bytes above it |
| PbReplace.LastWins | LangnOs/Pods/nanopb/pb_decode.c:401-475 | behind any accepted message one more value of a required, optional or singular field or union member that is a scalar, string or byte field is accepted, shows in its slot whatever was there, and changes no other slot |
| PbReplace.SubmessageAgain | LangnOs/Pods/nanopb/pb_decode.c:459-475 | a required or optional submessage that arrives again is decoded onto what is there, a union member onto its defaults |
| PbReplace.ChunkAgain | LangnOs/Pods/nanopb/pb_decode.c:423-457 | a packed chunk goes behind the elements that are there; one too many and the message is refused |
| PbReplace.ElementAgain | LangnOs/Pods/nanopb/pb_decode.c:452-457 | so does one element under a key of its own, although the encoder always packs |
| PbMerge.LoopExtends | LangnOs/Pods/nanopb/pb_decode.c:919-1010 | what the loop read to its end it reads in the same way when more follows |
| PbMerge.MergeLaw | LangnOs/Pods/nanopb/pb_decode.c:901-1049 | decoding a and then b on the result is decoding a followed by b, although one loop carries its iterator position and seen set across the join |
| PbMerge.ZeroKeyStops | LangnOs/Pods/nanopb/pb_decode.c:305-309 | nothing after a zero key is read, and the rest of the stream stays |
| PbMerge.ZeroKeyExample | LangnOs/Pods/nanopb/pb_decode.c:305-309 | the concrete zero key: [0] and a field with value 1 are both accepted, and together leave the struct as it was |
| PbMerge.FixedCountDoesNotMerge | LangnOs/Pods/nanopb/pb_decode.c:956-980 | without the fixed-count condition: one more element across the join is refused |
| PbMergeFixed.MergeIff | LangnOs/Pods/nanopb/pb_decode.c:901-1049 | for distinct tags and arrays that hold something: decoding a followed by b is decoding a and then b if and only if no fixed-count array is sent again first across the join and nothing lies behind a zero key of a |
| PbMergeFixed.MergeExact | LangnOs/Pods/nanopb/pb_decode.c:956-986 | the merge law for descriptors with fixed-count arrays: without a zero key the joined bytes are refused if the array that a leaves off with is the first fixed-count array that b sends, and otherwise decode as a and then b do |
| PbMergeFixed.CollisionExample | LangnOs/Pods/nanopb/pb_decode.c:956-986 | concrete bytes: two messages for a one-word fixed-count array are each accepted, and refused together |
| PbMergeFixed.LoopDoomed | LangnOs/Pods/nanopb/pb_decode.c:956-986 | from the moment the full array is sent again, either the fresh loop leaves it incomplete or the continued loop fails |
| PbMerge.UnknownSkipped | LangnOs/Pods/nanopb/pb_decode.c:316-326 | the loop consumes an unknown field exactly, and its iterator returns to where it was |
| PbMerge.UnknownTransparent | LangnOs/Pods/nanopb/pb_decode.c:933-962 | inserting a well-formed unknown field at any field boundary leaves the result of pb_decode_noinit unchanged |
| PbMerge.EmptyDescriptorTagZero | LangnOs/Pods/nanopb/pb_common.c:78-95 | the exception: tag 0 matches the terminator of an empty descriptor and the message is refused |
| PbMerge.FindAnywhere | LangnOs/Pods/nanopb/pb_common.c:78-95 | with distinct tags the field found does not depend on where the search starts |
| PbIterator.FieldIter.constructor | LangnOs/Pods/nanopb/pb_common.c:8-18 | the iterator starts at the first field with required index 0 and offset of that field |
| PbIterator.FieldIter.Rewind | LangnOs/Pods/nanopb/pb_common.c:8-18 | the iterator is back at the first field |
| PbIterator.FieldIter.Next | LangnOs/Pods/nanopb/pb_common.c:20-76 | one field further, false exactly on the way back to the first; offset and required index stay those of the position |
| PbIterator.FieldIter.Find | LangnOs/Pods/nanopb/pb_common.c:78-95 | finds the first field with the tag going round the circle, and comes back to its start when there is none |
| PbIterator.FullCycle | LangnOs/Pods/nanopb/pb_common.c:20-76 | from any position each field is visited exactly once in a cycle, which ends where it began |
| PbIterator.SeenIsArrived | LangnOs/Pods/nanopb/pb_decode.c:988-993 | the seen set holds exactly the indices of the required fields that arrived |
| PbIterator.RequiredExact | LangnOs/Pods/nanopb/pb_decode.c:1005-1046 | when all fields and fixed counts decode, the message is accepted if and only if each of the first 64 required fields appeared |
| PbLayout.DecMsgLayout | LangnOs/Pods/nanopb/pb_decode.c:901-1049 | decoding any bytes into a struct of the right layout leaves it in that layout |
| PbOutput.OStream.Sizing | LangnOs/Pods/nanopb/pb_encode.c:533-545 | a sizing stream starts with nothing counted |
| PbOutput.OStream.Buffer | LangnOs/Pods/nanopb/pb_encode.c:84-99 | a buffer stream starts at its memory with its capacity |
| PbOutput.OStream.Write | LangnOs/Pods/nanopb/pb_encode.c:101-119 | a write appends all of its bytes or changes nothing, and fails exactly when they do not fit |
| PbOutput.OStream.BufWrite | LangnOs/Pods/nanopb/pb_encode.c:72-82 | the bytes are copied behind what was written |
| PbOutput.EncodeVarint | LangnOs/Pods/nanopb/pb_encode.c:574-594 | the loop writes exactly the varint of the value, or fails exactly when it does not fit |
| PbOutput.EncodeTag | LangnOs/Pods/nanopb/pb_encode.c:635-639 | writes the key of the tag and wire type |
| PbOutput.EncodeString | LangnOs/Pods/nanopb/pb_encode.c:674-680 | writes the length and then the bytes |
| PbOutput.StrLen | LangnOs/Pods/nanopb/pb_encode.c:838-852 | the length up to the terminator, no further than the buffer |
| PbOutput.EncodeLeaf | LangnOs/Pods/nanopb/pb_encode.c:734-870 | every scalar, string and byte encoder writes exactly the specified encoding |
| PbOutput.EncodeSubmessage | LangnOs/Pods/nanopb/pb_encode.c:682-730 | the size pass, the length and the write pass together append exactly the length-delimited message |
| PbOutput.EncodeWithin | LangnOs/Pods/nanopb/pb_encode.c:698-727 | the write pass into a substream of the measured size succeeds and writes exactly that size: the submsg size changed error never occurs |
| PbOutput.EncodeElements | LangnOs/Pods/nanopb/pb_encode.c:126-185 | the elements of a packed array are written in order |
| PbOutput.PackedSize | LangnOs/Pods/nanopb/pb_encode.c:146-165 | the size pass of a packed array counts exactly the bytes of the write pass |
| PbOutput.EncodePackedArray | LangnOs/Pods/nanopb/pb_encode.c:137-185 | key, length and elements of a packed array are appended exactly |
| PbOutput.EncodeRepeated | LangnOs/Pods/nanopb/pb_encode.c:188-211 | a key and a value for each element are appended exactly |
| PbOutput.CheckProto3Default | LangnOs/Pods/nanopb/pb_encode.c:215-303 | the test says true exactly when all the bytes it looks at are zero |
| PbOutput.EncodeBasicField | LangnOs/Pods/nanopb/pb_encode.c:307-392 | a field is written as specified, or not at all when absent |
| PbOutput.Encode | LangnOs/Pods/nanopb/pb_encode.c:494-516 | pb_encode succeeds exactly when the message can be encoded and fits, and then appends exactly its encoding |
| PbOutput.GetEncodedSize | LangnOs/Pods/nanopb/pb_encode.c:533-545 | the size reported is the length of the encoding |
| PbOutput.EncodeToBuffer | LangnOs/Pods/nanopb/pb_encode.c:84-99 | encoding into a buffer of any capacity succeeds if and only if the reported size is at most that capacity |
| PbInput.IStream.constructor | LangnOs/Pods/nanopb/pb_decode.c:154-176 | the stream starts at the buffer with its length left |
| PbInput.IStream.Read | LangnOs/Pods/nanopb/pb_decode.c:100-132 | reads exactly the next bytes or fails when too few are left |
| PbInput.IStream.ReadByte | LangnOs/Pods/nanopb/pb_decode.c:136-152 | reads the next byte or fails at the end |
| PbInput.DecodeVarint32Eof | LangnOs/Pods/nanopb/pb_decode.c:182-242 | the loop accepts and returns exactly what the specified 32-bit decoder does, and reports the end of the stream before the first byte |
| PbInput.DecodeVarint32 | LangnOs/Pods/nanopb/pb_decode.c:244-248 | the same without the end-of-stream report |
| PbInput.DecodeVarint | LangnOs/Pods/nanopb/pb_decode.c:250-271 | the loop accepts and returns exactly what the specified 64-bit decoder does |
| PbInput.DecodeTag | LangnOs/Pods/nanopb/pb_decode.c:293-314 | tag and wire type, a zero key, the end of the stream, or an error |
| PbInput.SkipVarint | LangnOs/Pods/nanopb/pb_decode.c:273-282 | consumes one varint of any length |
| PbInput.SkipString | LangnOs/Pods/nanopb/pb_decode.c:284-291 | consumes a length and that many bytes |
| PbInput.SkipField | LangnOs/Pods/nanopb/pb_decode.c:316-326 | consumes exactly the payload of the wire type, or fails on an unknown one |
| PbInput.MakeStringSubstream | LangnOs/Pods/nanopb/pb_decode.c:367-380 | the substream is exactly the announced bytes and the parent loses them |
| PbInput.CloseStringSubstream | LangnOs/Pods/nanopb/pb_decode.c:382-395 | the parent continues exactly behind the substream, read or not |
| PbInput.DecodeScalar | LangnOs/Pods/nanopb/pb_decode.c:1289-1389 | every scalar decoder stores the specified value or fails |
| PbInput.DecodeBytes | LangnOs/Pods/nanopb/pb_decode.c:1391-1505 | strings and byte arrays are stored with terminator or size, or refused when too long |
| PbInput.DecodeValue | LangnOs/Pods/nanopb/pb_decode.c:1463-1485 | a submessage is decoded from its substream alone |
| PbInput.DecodePacked | LangnOs/Pods/nanopb/pb_decode.c:419-446 | a packed array is read until its substream is empty, and refused when it overflows or is short |
| PbInput.DecodeArray | LangnOs/Pods/nanopb/pb_decode.c:413-461 | one more element or a packed run; the count reaches array_size + 1 when an element too many is refused |
| PbInput.DecodeStaticField | LangnOs/Pods/nanopb/pb_decode.c:401-475 | the field's slot is updated as specified, including presence, count, and the selection of a union member |
| PbInput.MarkSeen | LangnOs/Pods/nanopb/pb_decode.c:988-993 | the bit of the required index is set in the 64-bit map, and no other |
| PbInput.CheckSeen | LangnOs/Pods/nanopb/pb_decode.c:1024-1046 | true exactly when the map holds all required indices up to 64 |
| PbInput.MessageSetToDefaults | LangnOs/Pods/nanopb/pb_decode.c:884-895 | every field gets its default |
| PbInput.Decode | LangnOs/Pods/nanopb/pb_decode.c:1051-1063 | pb_decode returns what the specification does, and stores its struct |
| PbInput.DecodeNoinit | LangnOs/Pods/nanopb/pb_decode.c:901-1049 | the loop accepts exactly what the specification does, and stores its struct |
| PbInput.DecodeFound | LangnOs/Pods/nanopb/pb_decode.c:956-998 | one found field: fixed-count tracking, seen map and decoding as specified |
| PbInput.DecodeNext | LangnOs/Pods/nanopb/pb_decode.c:919-998 | one turn of the loop: key, search, skip or decode as specified |
| PbInput.CheckRequired | LangnOs/Pods/nanopb/pb_decode.c:1005-1046 | true exactly when every required field up to the 64th was seen |
| DtlsMessages.FragmentRoundTrip | LangnOs/Pods/BoringSSL-GRPC/ssl/d1_both.cc:459-473 | parsing the encoding of a fragment gives it back and leaves the rest |
| DtlsMessages.ParsedIsEncoded | LangnOs/Pods/BoringSSL-GRPC/ssl/d1_both.cc:459-473 | whatever parses is the encoding of the fragment it yields, followed by the rest |
| DtlsMessages.KnownFragment | LangnOs/Pods/BoringSSL-GRPC/ssl/d1_both.cc:459-473 | the header byte by byte |
| DtlsReceive.OnFragmentSane | LangnOs/Pods/BoringSSL-GRPC/ssl/d1_both.cc:361-403 | no fragment puts a message outside the window of N sequence numbers |
| DtlsReceive.WindowEdge | LangnOs/Pods/BoringSSL-GRPC/ssl/d1_both.cc:380-383 | a sound fragment beyond the window is ignored except at exactly next + N, where it is an error |
| DtlsReceive.FragmentVerdict | LangnOs/Pods/BoringSSL-GRPC/ssl/d1_both.cc:350-383 | which fragments are refused and with which alert; a refused fragment and one outside the window change nothing |
| DtlsReceive.OtherRecords | LangnOs/Pods/BoringSSL-GRPC/ssl/d1_both.cc:307-341 | application data, ChangeCipherSpec and unknown records under either cipher state |
| DtlsAnySender.AnySender | LangnOs/Pods/BoringSSL-GRPC/ssl/d1_both.cc:350-408 | against any sender: messages are handed out in order, and each of their bytes was carried by a fragment that said the same about the message as all others let in, within the length allowed |
| DtlsAnySender.LastFragmentWins | LangnOs/Pods/BoringSSL-GRPC/ssl/d1_both.cc:396-404 | while a message is not whole the last fragment overwrites, a whole message is left alone |
| DtlsReceive.RecordIsItsFragments | LangnOs/Pods/BoringSSL-GRPC/ssl/d1_both.cc:350-403 | the parsing loop over a record of whole fragments is the fold over these fragments |
| DtlsEndToEnd.FragmentStep | LangnOs/Pods/BoringSSL-GRPC/ssl/d1_both.cc:361-403 | a genuine fragment never fails, and afterwards each partial message holds exactly the bytes that arrived |
| DtlsEndToEnd.AvailableExact | LangnOs/Pods/BoringSSL-GRPC/ssl/d1_both.cc:408-424 | the next message can be taken exactly when each of its bytes has arrived, and is then the sender's |
| DtlsEndToEnd.Delivery | LangnOs/Pods/BoringSSL-GRPC/ssl/d1_both.cc:350-438 | every run under loss, duplication, overlap and reordering: no error, the messages handed out are a prefix of those sent, and availability is exact |
| DtlsEndToEnd.AllDelivered | LangnOs/Pods/BoringSSL-GRPC/ssl/d1_both.cc:408-438 | once every byte has arrived, taking yields the whole flight |
| DtlsReassembly.BitOfRange | LangnOs/Pods/BoringSSL-GRPC/ssl/d1_both.cc:203-205 | bit_range sets exactly the bits from start to end |
| DtlsReassembly.MarkRange | LangnOs/Pods/BoringSSL-GRPC/ssl/d1_both.cc:211-236 | exactly the bits of the byte range are added to the bitmap |
| DtlsReassembly.IsComplete | LangnOs/Pods/BoringSSL-GRPC/ssl/d1_both.cc:238-250 | the completeness test says true exactly when the bit of every byte is set |
| DtlsReassembly.HmFragment.constructor | LangnOs/Pods/BoringSSL-GRPC/ssl/d1_both.cc:152-199 | a new message has its rebuilt header, an empty bitmap, and none when it is empty |
| DtlsReassembly.HmFragment.Receive | LangnOs/Pods/BoringSSL-GRPC/ssl/d1_both.cc:393-402 | the bytes of a fragment are merged, and the bitmap disappears exactly when all bytes are there |
| DtlsReassembly.HmFragment.RawBytes | LangnOs/Pods/BoringSSL-GRPC/ssl/d1_both.cc:413-418 | a whole message is byte for byte its single-fragment form, header included |
| DtlsReceiver.SlotUnique | LangnOs/Pods/BoringSSL-GRPC/ssl/d1_both.cc:273-275 | two sequence numbers of one window never share a slot |
| DtlsReceiver.Receiver.constructor | LangnOs/Pods/BoringSSL-GRPC/ssl/d1_both.cc:265-295 | an empty ring of N slots |
| DtlsReceiver.Receiver.RingAssertion | LangnOs/Pods/BoringSSL-GRPC/ssl/d1_both.cc:273-275 | the slot of a number in the window holds that message or none: the assertion frag->seq == msg_hdr->seq cannot fail |
| DtlsReceiver.Receiver.IsCurrentComplete | LangnOs/Pods/BoringSSL-GRPC/ssl/d1_both.cc:255-259 | true exactly when the next message is there and whole |
| DtlsReceiver.Receiver.Create | LangnOs/Pods/BoringSSL-GRPC/ssl/d1_both.cc:288-294 | the first fragment of a message puts an empty partial message into its slot and changes no other |
| DtlsReceiver.Receiver.Fill | LangnOs/Pods/BoringSSL-GRPC/ssl/d1_both.cc:393-402 | the fragment is merged into its message unless that is whole, and no other message changes |
| DtlsReceiver.Receiver.OpenFragment | LangnOs/Pods/BoringSSL-GRPC/ssl/d1_both.cc:361-403 | one turn of the loop does what the specification says, error or not |
| DtlsReceiver.Receiver.OpenHandshake | LangnOs/Pods/BoringSSL-GRPC/ssl/d1_both.cc:350-405 | the loop over a record does what the specification says, keeping the effect of fragments before an error |
| DtlsReceiver.Receiver.OpenRecord | LangnOs/Pods/BoringSSL-GRPC/ssl/d1_both.cc:297-406 | each record type under each cipher state does what the specification says |
| DtlsReceiver.Receiver.GetMessage | LangnOs/Pods/BoringSSL-GRPC/ssl/d1_both.cc:408-424 | yields exactly when the message is whole, and then its raw bytes |
| DtlsReceiver.Receiver.NextMessage | LangnOs/Pods/BoringSSL-GRPC/ssl/d1_both.cc:426-438 | removes the current message only and moves the window by one, modulo 2^16 |
| DtlsReceiver.Receiver.HasUnprocessed | LangnOs/Pods/BoringSSL-GRPC/ssl/d1_both.cc:440-457 | true exactly when a ChangeCipherSpec or a message other than the one being processed is buffered |
| DtlsFlight.StoredRaw | LangnOs/Pods/BoringSSL-GRPC/ssl/d1_both.cc:511-537 | the stored bytes of a message parse back as that message |
| DtlsFlight.StepAdvances | LangnOs/Pods/BoringSSL-GRPC/ssl/d1_both.cc:644-734 | each record advances the position, so messages left and then bytes left decrease |
| DtlsFlight.CoveredOnce | LangnOs/Pods/BoringSSL-GRPC/ssl/d1_both.cc:644-734 | in a pass between two positions exactly one record carries each byte in between and none carries any other |
| DtlsFlight.Mentioned | LangnOs/Pods/BoringSSL-GRPC/ssl/d1_both.cc:644-734 | each message of a pass, even an empty one, is carried by some record |
| DtlsSender.BuildMessage | LangnOs/Pods/BoringSSL-GRPC/ssl/d1_both.cc:511-537 | the message built with the length patched in is the single-fragment form, and fails exactly from 2^24 bytes on |
| DtlsSender.Sender.AddOutgoing | LangnOs/Pods/BoringSSL-GRPC/ssl/d1_both.cc:555-594 | appends to the flight, or starts a new one after a flush; hashes and counts messages but not ChangeCipherSpec; refuses beyond N |
| DtlsSender.Sender.AddMessage | LangnOs/Pods/BoringSSL-GRPC/ssl/d1_both.cc:511-537 | a message with the current sequence number is stored and hashed in its single-fragment form |
| DtlsSender.Sender.SealNextMessage | LangnOs/Pods/BoringSSL-GRPC/ssl/d1_both.cc:644-734 | the record is the next piece of the flight and the longest that fits; no progress only for lack of room; the offset moves only with a record |
| DtlsSender.Sender.SealNextPacket | LangnOs/Pods/BoringSSL-GRPC/ssl/d1_both.cc:739-780 | a packet is a nonempty run of next pieces and fits its limit; after success or failure the position is behind exactly the records sealed |
| DtlsSender.Sender.SendFlight | LangnOs/Pods/BoringSSL-GRPC/ssl/d1_both.cc:782-827 | over any results of BIO_write: the packets written fit the MTU and carry the flight from the old position to the new one; a refused write leaves the position after the last accepted packet, and a failure of sealing leaves it behind the records it lost |
| DtlsSender.Sender.FlushFlight | LangnOs/Pods/BoringSSL-GRPC/ssl/d1_both.cc:829-834 | marks the flight complete and sends it |
| DtlsSender.Sender.Retransmit | LangnOs/Pods/BoringSSL-GRPC/ssl/d1_both.cc:836-845 | sends the whole flight again from its start |
| DtlsNetwork.PlainIsItsFragment | LangnOs/Pods/BoringSSL-GRPC/ssl/d1_both.cc:459-473 | the receiver's loop sees exactly the bytes that were sealed |
| DtlsNetwork.PassIsSent | LangnOs/Pods/BoringSSL-GRPC/ssl/d1_both.cc:782-827 | every record of a pass, complete or cut short, is a piece of the flight that the network theorems speak of |
| DtlsNetwork.LossyDelivery | LangnOs/Pods/BoringSSL-GRPC/ssl/d1_both.cc:350-438 | sender and receiver together: whatever subset, order and repetition of records arrives, from any number of passes, the messages handed out are a prefix of those sent |
| DtlsNetwork.CompletePassDelivers | LangnOs/Pods/BoringSSL-GRPC/ssl/d1_both.cc:782-827 | once each record of one complete pass has arrived, the whole flight is handed out |
| DtlsReplay.TestBit | LangnOs/Pods/BoringSSL-GRPC/ssl/dtls_record.cc:140-150 | testing map & (1 << idx) reads bit idx |
| DtlsReplay.DiscardExact | LangnOs/Pods/BoringSSL-GRPC/ssl/dtls_record.cc:140-150 | a number is discarded exactly when it was recorded or is more than 63 below the maximum |
| DtlsReplay.RecordRefines | LangnOs/Pods/BoringSSL-GRPC/ssl/dtls_record.cc:155-175 | recording a number keeps the map the window of the recorded set, with its maximum |
| DtlsReplay.AcceptedOnce | LangnOs/Pods/BoringSSL-GRPC/ssl/dtls_record.cc:140-175 | in every run of an epoch the map refines the set of accepted numbers and none is accepted twice |
| DtlsReplay.AcceptedExactly | LangnOs/Pods/BoringSSL-GRPC/ssl/dtls_record.cc:140-175 | a record is accepted exactly when its number is new and among the last 64 |
| DtlsReplay.ToU64Be | LangnOs/Pods/BoringSSL-GRPC/ssl/dtls_record.cc:128-136 | the loop computes the big-endian value of the eight bytes |
| DtlsReplay.Bitmap.ShouldDiscard | LangnOs/Pods/BoringSSL-GRPC/ssl/dtls_record.cc:140-150 | the method decides as the specification |
| DtlsReplay.Bitmap.RecordReceipt | LangnOs/Pods/BoringSSL-GRPC/ssl/dtls_record.cc:155-175 | the method updates the map and the maximum as the specification |
| DtlsOpenRecord.RecordReader.Open | LangnOs/Pods/BoringSSL-GRPC/ssl/dtls_record.cc:177-272 | a record gets through exactly when its header, version and epoch fit, its number is new and not stale, and it authenticates; only then is its number recorded, and its alert processed or the count of warnings reset; anything else changes nothing |
| DtlsOpenRecord.RecordRoundTrip | LangnOs/Pods/BoringSSL-GRPC/ssl/dtls_record.cc:193-206 | every record of type, version, number, length and body is read back, big-endian and byte by byte, whatever follows it |
| DtlsOpenRecord.ParsedRecord | LangnOs/Pods/BoringSSL-GRPC/ssl/dtls_record.cc:193-206 | what is read is such a record |
| DtlsOpenRecord.RecordReader.OpeningOnBytes | LangnOs/Pods/BoringSSL-GRPC/ssl/dtls_record.cc:193-258 | on the bytes of a record: version, epoch, a number that is new and among the last 64, and authenticity let it through |
| DtlsRecordNumbers.CountersAreCut | LangnOs/Pods/BoringSSL-GRPC/ssl/dtls_record.cc:294-351 | in every run, wraps included, the epoch and both sequence counters and all numbers used are the unbounded counts cut to 16 and 48 bits |
| DtlsRecordNumbers.EpochsCountUp | LangnOs/Pods/BoringSSL-GRPC/ssl/dtls_record.cc:294-351 | with fewer than 2^16 state changes and at most 2^48 seals of an epoch the numbers used in it are 0, 1, 2, ... in this order |
| DtlsRecordNumbers.UniqueNumbers | LangnOs/Pods/BoringSSL-GRPC/ssl/dtls_record.cc:294-351 | over any interleaving of current-epoch seals, previous-epoch seals and state changes: no pair of epoch and number is used twice if and only if no write state seals more than 2^48 records and no two that seal share their 16-bit epoch |
| DtlsRecordNumbers.WrapRepeats | LangnOs/Pods/BoringSSL-GRPC/ssl/dtls_record.cc:331-339 | concrete runs: 2^48 seals in one epoch have different numbers, one more repeats |
| DtlsRecordNumbers.EpochWrapRepeats | LangnOs/Pods/BoringSSL-GRPC/ssl/dtls_record.cc:294-351 | the concrete run with a seal, 2^16 state changes and a seal uses epoch 0 and number 0 twice |
| DtlsRecordWriter.RecordWriter.SealRecord | LangnOs/Pods/BoringSSL-GRPC/ssl/dtls_record.cc:294-351 | succeeds exactly when the record fits, the cipher accepts it, the number does not wrap and the length fits 16 bits; the record carries the next number of its epoch and the cipher use is logged |
| DtlsReceiver.Receiver.SetReadState | LangnOs/Pods/BoringSSL-GRPC/ssl/dtls_method.cc:81-95 | refused exactly while handshake data is unprocessed; otherwise the next epoch |
| DtlsOpenRecord.RecordReader.NextEpoch | LangnOs/Pods/BoringSSL-GRPC/ssl/dtls_method.cc:88-94 | the next epoch starts with an empty window |
| DtlsOpenRecord.RecordReader.ProcessAlert | LangnOs/Pods/BoringSSL-GRPC/ssl/tls_record.cc:551-601 | close_notify closes, a fifth warning in a row and any other alert is an error, and which alert answers it |
| DtlsOpenRecord.KnownAlerts | LangnOs/Pods/BoringSSL-GRPC/ssl/tls_record.cc:551-601 | the alerts by their numbers |
| DtlsTwoEpochs.RunHolds | LangnOs/Pods/BoringSSL-GRPC/ssl/d1_both.cc:350-438 | a flight with ChangeCipherSpec and a Finished in epoch 1, under loss, repetition and reordering: no record is an error, the change of the read state is never refused, it comes only behind the last message of epoch 0, and what is handed out is a prefix of messages and Finished |
| DtlsTwoEpochs.ChangeHolds | LangnOs/Pods/BoringSSL-GRPC/ssl/dtls_method.cc:81-95 | the flag is cleared and nothing is left unprocessed, so that the new epoch begins with an empty ring |
| DtlsTwoEpochs.ArrivalHolds | LangnOs/Pods/BoringSSL-GRPC/ssl/d1_both.cc:297-406 | a record of the flight in the current epoch is processed without error, of another epoch dropped |
| DtlsTwoEpochs.FlightCompletes | LangnOs/Pods/BoringSSL-GRPC/ssl/d1_both.cc:475-493 | once the records of a complete pass got through, those of epoch 0 before the change and the others behind it, the handshake has the whole flight and is done |
| DtlsRecordWriter.RecordWriter.SetWriteState | LangnOs/Pods/BoringSSL-GRPC/ssl/dtls_method.cc:97-107 | the sequence and the cipher become those of the previous epoch and the new sequence starts at 0 |
| TlsRunShape.ClientProgress | LangnOs/Pods/BoringSSL-GRPC/ssl/handshake_client.cc:1707-1789 | each step advances in a rank that depends on resumption, or leaves the handshake exactly as it was and can be repeated |
| TlsRunShape.ServerProgress | LangnOs/Pods/BoringSSL-GRPC/ssl/handshake_server.cc:1539-1621 | the same for the server |
| TlsRunShape.ClientShape | LangnOs/Pods/BoringSSL-GRPC/ssl/handshake_client.cc:1707-1789 | in every run against any peer the events so far are determined by the state, resumption and the cipher |
| TlsRunShape.ClientRunShape | LangnOs/Pods/BoringSSL-GRPC/ssl/handshake_client.cc:621-1705 | every completed client run sent one Finished and checked one in the order fixed by resumption, changed the read cipher between the ChangeCipherSpec and the check, and in a full handshake with a certificate cipher had the certificate verified first |
| TlsRunShape.ServerShape | LangnOs/Pods/BoringSSL-GRPC/ssl/handshake_server.cc:1539-1621 | the same invariant for the server |
| TlsRunShape.ServerRunShape | LangnOs/Pods/BoringSSL-GRPC/ssl/handshake_server.cc:1365-1537 | every completed server run sent one Finished and checked one in the order fixed by resumption, and verified a client certificate first if one came |
| TlsTranscript.ClientTranscript | LangnOs/Pods/BoringSSL-GRPC/ssl/handshake_client.cc:535-1705 | in every state of every run against any peer the client's transcript is the flow of the RFC up to there, kinds in order, with the parameters, certificates and Finished bodies that belong in it |
| TlsTranscript.ServerTranscript | LangnOs/Pods/BoringSSL-GRPC/ssl/handshake_server.cc:572-1537 | the same for the server |
| TlsTranscript.ClientChecked | LangnOs/Pods/BoringSSL-GRPC/ssl/handshake.cc:380-424 | a client past its check, whoever its peer is, has a Finished of the server over all that it had hashed itself |
| TlsTranscript.ServerChecked | LangnOs/Pods/BoringSSL-GRPC/ssl/handshake.cc:380-424 | a server past its check has a Finished of the client over all that it had hashed itself |
| TlsTranscript.EarlyReturnExact | LangnOs/Pods/BoringSSL-GRPC/ssl/handshake_client.cc:1538-1564 | the machine returns early exactly behind the client flight of a full handshake when False Start is allowed |
| TlsTranscript.ClientCipherChangesClean | LangnOs/Pods/BoringSSL-GRPC/ssl/tls_method.cc:84-97 | no step changes the read cipher over an unread message |
| TlsTranscript.ServerCipherChangesClean | LangnOs/Pods/BoringSSL-GRPC/ssl/tls_method.cc:84-97 | the same for the server |
| TlsRunHandshake.Handshake.DoHandshake | LangnOs/Pods/BoringSSL-GRPC/ssl/handshake_client.cc:1707-1789 | the loop of either machine ends, is a sequence of single steps, and returns ok exactly when the handshake is done |
| TlsRunHandshake.Handshake.Run | LangnOs/Pods/BoringSSL-GRPC/ssl/handshake.cc:491-628 | ssl_run_handshake ends, is a sequence of moves of the joint model, and reports completion, early return, failure or the need to call again as its last wait says |
| TlsRunHandshake.Handshake.Turn | LangnOs/Pods/BoringSSL-GRPC/ssl/handshake.cc:494-627 | one turn resolves the wait and runs the machine; to go on it must have made the rest of the handshake smaller |
| TlsRunHandshake.Handshake.Resolve | LangnOs/Pods/BoringSSL-GRPC/ssl/handshake.cc:497-541 | one attempt to end a wait is one move of the model, and a wait that ended leaves less to do |
| TlsRunHandshake.OnlyDueRecords | LangnOs/Pods/BoringSSL-GRPC/ssl/handshake.cc:497-541 | a move takes a record off the wire only if it is the one waited for under the read cipher in force, any other fails the side and stays unread; what is pending reaches the wire in order |
| TlsScript.PutSlot | LangnOs/Pods/BoringSSL-GRPC/ssl/s3_both.cc:184-205 | a message sent in the next own slot keeps both sides on one script |
| TlsScript.PutCcsSlot | LangnOs/Pods/BoringSSL-GRPC/ssl/s3_both.cc:207-218 | so does a ChangeCipherSpec, with the write cipher changed from there on |
| TlsScript.TakeSlot | LangnOs/Pods/BoringSSL-GRPC/ssl/handshake.cc:215-218 | hashing the next unread message advances its reader on the same script |
| TlsScript.TakeFinished | LangnOs/Pods/BoringSSL-GRPC/ssl/handshake.cc:380-429 | a Finished that is the reader's next slot covers exactly the reader's transcript |
| TlsScript.WireHead | LangnOs/Pods/BoringSSL-GRPC/ssl/handshake.cc:497-541 | the next record on the wire is that of the next present slot, under its sender's cipher |
| TlsClientSteps.StartConnectFollows | LangnOs/Pods/BoringSSL-GRPC/ssl/handshake_client.cc:385-452 | the ClientHello fills slot 0 |
| TlsClientSteps.ReadServerHelloFollows | LangnOs/Pods/BoringSSL-GRPC/ssl/handshake_client.cc:535-759 | the ServerHello that arrives is the server's and settles the same parameters |
| TlsClientSteps.ReadServerCertificateFollows | LangnOs/Pods/BoringSSL-GRPC/ssl/handshake_client.cc:771-819 | reads the Certificate, or passes its slot without a certificate cipher; never fails against this server |
| TlsClientSteps.ReadCertificateStatusFollows | LangnOs/Pods/BoringSSL-GRPC/ssl/handshake_client.cc:821-869 | reads the CertificateStatus, or passes its slot |
| TlsClientSteps.VerifyServerCertificateFollows | LangnOs/Pods/BoringSSL-GRPC/ssl/handshake_client.cc:871-889 | changes nothing on the wire or in the transcript |
| TlsClientSteps.ReadServerKeyExchangeFollows | LangnOs/Pods/BoringSSL-GRPC/ssl/handshake_client.cc:891-1071 | reads the ServerKeyExchange if the server sent one, and otherwise passes its slot |
| TlsClientSteps.ReadCertificateRequestFollows | LangnOs/Pods/BoringSSL-GRPC/ssl/handshake_client.cc:1073-1143 | reads the CertificateRequest if the server sent one, and otherwise passes its slot |
| TlsClientSteps.SendClientCertificateFollows | LangnOs/Pods/BoringSSL-GRPC/ssl/handshake_client.cc:1169-1215 | a requested Certificate fills its slot, an unrequested one is passed |
| TlsClientSteps.SendClientKeyExchangeFollows | LangnOs/Pods/BoringSSL-GRPC/ssl/handshake_client.cc:1220-1371 | the ClientKeyExchange fills its slot |
| TlsClientSteps.SendClientCertificateVerifyFollows | LangnOs/Pods/BoringSSL-GRPC/ssl/handshake_client.cc:1373-1455 | a CertificateVerify is sent exactly for a requested, nonempty certificate |
| TlsClientSteps.SendClientFinishedFollows | LangnOs/Pods/BoringSSL-GRPC/ssl/handshake_client.cc:1457-1512 | ChangeCipherSpec, NextProto, ChannelId and Finished fill their slots and the Finished covers the transcript before it |
| TlsClientSteps.FinishFlightFollows | LangnOs/Pods/BoringSSL-GRPC/ssl/handshake_client.cc:1538-1564 | goes on to the ticket or to the end as resumption says |
| TlsClientSteps.ReadSessionTicketFollows | LangnOs/Pods/BoringSSL-GRPC/ssl/handshake_client.cc:1566-1647 | reads the ticket or passes its slot, and then waits for the ChangeCipherSpec that is next |
| TlsClientSteps.ProcessServerCcsFollows | LangnOs/Pods/BoringSSL-GRPC/ssl/handshake_client.cc:1649-1656 | nothing is left unread when the read cipher changes |
| TlsClientSteps.ReadServerFinishedFollows | LangnOs/Pods/BoringSSL-GRPC/ssl/handshake_client.cc:1658-1672 | the check of the server's Finished succeeds |
| TlsServerSteps.ReadClientHelloFollows | LangnOs/Pods/BoringSSL-GRPC/ssl/handshake_server.cc:432-510 | the ClientHello stays unread and is the client's |
| TlsServerSteps.SelectParametersFollows | LangnOs/Pods/BoringSSL-GRPC/ssl/handshake_server.cc:572-684 | the ClientHello is hashed and its slot taken |
| TlsServerSteps.SendServerHelloFollows | LangnOs/Pods/BoringSSL-GRPC/ssl/handshake_server.cc:686-752 | the ServerHello with the settled parameters fills its slot |
| TlsServerSteps.SendServerCertificateFollows | LangnOs/Pods/BoringSSL-GRPC/ssl/handshake_server.cc:754-840 | Certificate and CertificateStatus fill their slots exactly when present |
| TlsServerSteps.SendServerKeyExchangeFollows | LangnOs/Pods/BoringSSL-GRPC/ssl/handshake_server.cc:842-912 | the ServerKeyExchange fills its slot when the cipher or a hint needs it |
| TlsServerSteps.SendServerHelloDoneFollows | LangnOs/Pods/BoringSSL-GRPC/ssl/handshake_server.cc:914-947 | CertificateRequest, if any, and ServerHelloDone end the flight |
| TlsServerSteps.ReadClientCertificateFollows | LangnOs/Pods/BoringSSL-GRPC/ssl/handshake_server.cc:949-1040 | the requested Certificate is read and its chain is the client's |
| TlsServerSteps.ReadClientKeyExchangeFollows | LangnOs/Pods/BoringSSL-GRPC/ssl/handshake_server.cc:1058-1267 | the ClientKeyExchange is read |
| TlsServerSteps.ReadClientCertificateVerifyFollows | LangnOs/Pods/BoringSSL-GRPC/ssl/handshake_server.cc:1269-1363 | the CertificateVerify is read exactly for a nonempty chain |
| TlsServerSteps.ReadNextProtoFollows | LangnOs/Pods/BoringSSL-GRPC/ssl/handshake_server.cc:1379-1413 | read exactly when negotiated |
| TlsServerSteps.ReadChannelIdFollows | LangnOs/Pods/BoringSSL-GRPC/ssl/handshake_server.cc:1415-1437 | read exactly when negotiated |
| TlsServerSteps.ReadClientFinishedFollows | LangnOs/Pods/BoringSSL-GRPC/ssl/handshake_server.cc:1439-1461 | the check of the client's Finished succeeds |
| TlsServerSteps.SendServerFinishedFollows | LangnOs/Pods/BoringSSL-GRPC/ssl/handshake_server.cc:1463-1509 | ticket, ChangeCipherSpec and Finished fill their slots and the Finished covers the transcript before it |
| TlsJoint.RunInv | LangnOs/Pods/BoringSSL-GRPC/ssl/handshake.cc:491-628 | in every joint run, with any partial flushes and scheduling, both sides stand on one script and what is under way is exactly the stretch between them |
| TlsJoint.Agreement | LangnOs/Pods/BoringSSL-GRPC/ssl/handshake.cc:380-476 | in every joint run transcripts are prefixes of each other and equal at the end, each Finished covers what its reader has hashed, no side waits to read with an unflushed flight, and nothing fails unless the world made it fail |
| TlsJoint.NoDeadlock | LangnOs/Pods/BoringSSL-GRPC/ssl/handshake.cc:491-628 | unless a step failed from outside, both sides are done or one of them can move |
| TlsJoint.MoveDecreases | LangnOs/Pods/BoringSSL-GRPC/ssl/handshake.cc:491-628 | every effective move makes the rest of the joint handshake smaller |
| TlsJoint.Completes | LangnOs/Pods/BoringSSL-GRPC/ssl/handshake.cc:491-628 | any scheduler that always lets some side move brings both sides to done |
| TlsJoint.MovesAgree | LangnOs/Pods/BoringSSL-GRPC/ssl/handshake.cc:491-628 | the moves of the joint system are those that ssl_run_handshake makes |
| TlsWriter.Connection.AddRecordToFlight | LangnOs/Pods/BoringSSL-GRPC/ssl/s3_both.cc:135-165 | the sealed record goes to the end of the flight, and the wire order invariant is kept |
| TlsWriter.Connection.AddMessage | LangnOs/Pods/BoringSSL-GRPC/ssl/s3_both.cc:184-205 | the records of a message carry exactly the message, none longer than the fragment limit, at least one |
| TlsWriter.Connection.AddChangeCipherSpec | LangnOs/Pods/BoringSSL-GRPC/ssl/s3_both.cc:207-218 | one record of one byte joins the flight |
| TlsWriter.Connection.FlushFlight | LangnOs/Pods/BoringSSL-GRPC/ssl/s3_both.cc:231-279 | over any partial writes the bytes reach the transport in sealing order; with a flight pending success means that all of them have, with none nothing is written |
| TlsWriter.Connection.WriteFlight | LangnOs/Pods/BoringSSL-GRPC/ssl/s3_both.cc:257-268 | the loop advances the offset by what was taken and keeps the order |
| TlsWriter.Connection.WriteBufferFlush | LangnOs/Pods/BoringSSL-GRPC/ssl/ssl_buffer.cc:239-252 | the buffer is written in order, each byte once, until it is empty or the transport refuses |
| TlsWriter.Connection.WritePending | LangnOs/Pods/BoringSSL-GRPC/ssl/s3_pkt.cc:202-218 | a bad retry or a refused write leaves the record pending; success reports its length |
| TlsWriter.Connection.AdoptFlight | LangnOs/Pods/BoringSSL-GRPC/ssl/s3_pkt.cc:255-267 | the rest of the flight becomes the front of the write buffer without changing the order |
| TlsWriter.Connection.DoWrite | LangnOs/Pods/BoringSSL-GRPC/ssl/s3_pkt.cc:221-289 | either a pending record is continued and nothing is sealed, or at most one record with exactly these bytes is sealed; a matching retry fails only with the answer of the transport |
| TlsWriter.Connection.SealAndWrite | LangnOs/Pods/BoringSSL-GRPC/ssl/s3_pkt.cc:255-289 | the flight goes in front of the record, which is then pending unless the transport took all of it |
| TlsWriter.Connection.WriteChunk | LangnOs/Pods/BoringSSL-GRPC/ssl/s3_pkt.cc:177-199 | the next fragment is sealed once, however often it is retried |
| TlsWriter.Connection.WriteAppData | LangnOs/Pods/BoringSSL-GRPC/ssl/s3_pkt.cc:129-200 | for a fresh write or a retry with the same buffer: a result that is not positive leaves a retryable attempt and, with a record pending, is the last answer of the transport; a positive one means that exactly this much of the buffer has been sealed exactly once, all of it without partial writes; if sealing cannot fail only the transport can stop it; a shorter buffer than what was sent is refused |
| TlsWriter.Connection.WriteRetrying | LangnOs/Pods/BoringSSL-GRPC/ssl/s3_pkt.cc:129-200 | the same buffer offered until the result is positive: the records sealed over all attempts carry exactly what the result says, and if sealing cannot fail a write ends unfinished only when the transport refused last |
| TlsWriter.Connection.AttemptKept | LangnOs/Pods/BoringSSL-GRPC/ssl/s3_both.cc:184-205 | handshake records sealed between attempts do not disturb the write |
| TlsCipherChoice.ChooseFrom | LangnOs/Pods/BoringSSL-GRPC/ssl/handshake_server.cc:389-421 | the loop returns the candidate of the first group that has one with the least index in the other list, or none if there is no candidate |
| TlsCipherChoice.ChooseCipher | LangnOs/Pods/BoringSSL-GRPC/ssl/handshake_server.cc:357-424 | in bits and flags: the result is in both lists, has the version and shares a bit with each mask; nothing usable stands in an earlier group of the server or earlier in the client list within its group, or earlier in client order; with the last group closed none means that nothing usable is shared |
| TlsCipherChoice.EligibleExact | LangnOs/Pods/BoringSSL-GRPC/ssl/handshake_server.cc:396-402 | a cipher is eligible exactly if it has the version, shares a key exchange bit and an authentication bit, and is in the other list |
| TlsCipherChoice.OptimalUnique | LangnOs/Pods/BoringSSL-GRPC/ssl/handshake_server.cc:389-421 | the optimal choice is unique |
| TlsCipherChoice.NoneIffNothingShared | LangnOs/Pods/BoringSSL-GRPC/ssl/handshake_server.cc:389-424 | with flags that close the last group nothing is chosen exactly when no supported cipher is shared |
| TlsCipherChoice.NoneExact | LangnOs/Pods/BoringSSL-GRPC/ssl/handshake_server.cc:389-424 | exactly which flags let none mean that nothing is shared, whatever the client offers: every supported cipher behind the last 0 also stands in a closed group |
| TlsCipherChoice.OpenGroupIsLost | LangnOs/Pods/BoringSSL-GRPC/ssl/handshake_server.cc:412-418 | a cipher that stands only behind the last 0 is not chosen even if it is all that is shared |
| TlsCipherChoice.ClientOrder | LangnOs/Pods/BoringSSL-GRPC/ssl/handshake_server.cc:377-385 | without server preference the choice is the client's first supported shared cipher |
| Refcount.LockedCounter.Increment | LangnOs/Pods/BoringSSL-GRPC/crypto/refcount_lock.c:29-35 | adds one unless saturated |
| Refcount.LockedCounter.DecAndTestZero | LangnOs/Pods/BoringSSL-GRPC/crypto/refcount_lock.c:37-51 | aborts at zero, otherwise subtracts one unless saturated and says whether zero was reached |
| Refcount.Linearizable | LangnOs/Pods/BoringSSL-GRPC/crypto/refcount_c11.c:37-65 | every interleaving of the loops, with spurious failures, has the value and all outcomes of the locked counter run in the order of effects |
| Refcount.OrderGrows | LangnOs/Pods/BoringSSL-GRPC/crypto/refcount_c11.c:37-65 | the order of effects is only appended to, so it respects the order of calls that do not overlap |
| Refcount.Saturated | LangnOs/Pods/BoringSSL-GRPC/crypto/refcount_c11.c:37-65 | a count that reaches the maximum never changes again |
| Refcount.Balance | LangnOs/Pods/BoringSSL-GRPC/crypto/refcount_lock.c:29-51 | without saturation and abort the count is what was added less what was taken, and decrements that return 1 exceed increments from zero by one exactly when the count ends at zero |
| Refcount.OneLastReference | LangnOs/Pods/BoringSSL-GRPC/crypto/refcount_c11.c:49-65 | n increments and n + 1 decrements from 1 end at 0, and exactly one decrement returns 1 if and only if no increment took effect at zero |
| Refcount.RevivedCountEndsTwice | LangnOs/Pods/BoringSSL-GRPC/crypto/refcount_lock.c:29-51 | a concrete order in which an increment at zero makes two decrements return 1 |

## Left out

- DtlsReceiver.Receiver.SetReadState: the cipher and the bitmap of the new epoch belong to DtlsOpenRecord.RecordReader.NextEpoch.
- PbOutput.Encode: assumes that no size_t wraps, as NoWrap says; the wrapped sizes are not modelled.
- TlsWriter.Connection.WriteAppData: the fragment limit is fixed for a connection, and early data is not modelled.
- PbInput.DecodeNoinit: the destination struct is a value that is returned, so aliasing and what a failed decode leaves in it are not captured.
- nanopb callbacks, extensions, pointer fields, custom streams, error strings and the build without 64-bit integers: user code or variants that only widen the model.
- Raw struct memory: structs are typed slots, and PbMemory gives only the first bytes of a value, from the offsets of its descriptor. Padding has no value in the model, so PbWellFormed.WfField leaves out descriptors where the zero test of a fixed-count array would read padding, and arrays shorter than the count word, behind which pb_decode writes.
- A which_ member that begins inside a count word of a packed struct is cleared as a whole or not at all, and the data of an unselected union is never looked at.
- Delimited and null-terminated wrappers of pb_encode and pb_decode, and pb_release, which does nothing for static fields.
- Cryptography: a cipher is its lengths and its success, opening a record is an abstract partial function, a Finished body is the transcript it covers, and signatures and certificate checks are outcomes of a step.
- Contents of hello, certificate, key-exchange and ticket bodies, and the parsing of extensions: the parameters the server settles travel in its ServerHello, and any parse error is a failure from outside.
- TLS 1.3, SSL 3.0, HelloVerifyRequest, early data, renegotiation, alerts outside dtls_open_record, DTLS inside the joint handshake, and split handshake messages within one record.
- Packing of several handshake messages into one record and several records into one read: the joint model has one message a record.
- TlsMachines steps are functions on handshake values, which the loops of TlsRunHandshake assign; aliasing of the session objects is not modelled.
- ssl_create_cipher_list, which builds the group flags and always closes the last group (ssl_cipher.cc:1043-1049, 1196-1199).
- The checks of tls_open_record on empty records and on TLS alerts.
- DTLS timers, MTU queries, on_handshake_complete, and the records that arrive after the Finished was taken.
- Failures of memory allocation.
- The Swift application, session serialisation, buffer alignment, the capacity bookkeeping of SSLBuffer, and error queues.
- tls_seal_record: an abstract function from record number and plaintext to bytes; the split of the first byte under old CBC ciphers is inside it.
