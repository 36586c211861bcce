# Verified model of the tunnel connector's protocol core

The connector registers an embedded device with an edge network and serves requests through it. This project models the
portable core of that program in Dafny and proves what its parts promise each other.

| component | files |
|---|---|
| Base64 and the serialized header list | `Base64.dfy`, `Base64Meaning.dfy`, `HeaderCodec.dfy`, `HeaderMeaning.dfy` |
| Cap'n Proto stream framer | `Framing.dfy`, `FramingMeaning.dfy` |
| Cap'n Proto pointer reader, its safety and meaning, and the builder | `CapnpReader.dfy`, `CapnpSafety.dfy`, `CapnpMeaning.dfy`, `CapnpObjects.dfy`, `CapnpTree.dfy`, `CapnpLayouts.dfy`, `CapnpBuilder.dfy` |
| Registration RPC: messages, round trips, client, byte queue | `RpcMessages.dfy`, `RegistrationRoundTrip.dfy`, `RpcReadBack.dfy`, `Rpc.dfy`, `RpcReplies.dfy`, `RpcOutcomes.dfy`, `RpcWriter.dfy`, `RpcClient.dfy`, `ControlQueue.dfy`, `ControlStream.dfy` |
| DNS names, query, reply and the choice of an edge server | `DnsNames.dfy`, `DnsQuery.dfy`, `DnsReply.dfy`, `DnsRoundTrip.dfy`, `DnsMeaning.dfy`, `SrvPick.dfy` |
| HTTP/2 quota allocator and stream admission | `HeapQuota.dfy`, `Admission.dfy`, `AdmissionSafety.dfy`, `AdmissionMeaning.dfy`, `AdmissionTable.dfy` |
| Lifecycle reducer with backoff | `Lifecycle.dfy`, `LifecycleMeaning.dfy` |
| Firmware upload | `Ota.dfy`, `OtaMeaning.dfy` |

Each component has a specification in pure functions, theorems about it, and the imperative form of the source (a class or
a method over arrays) whose `ensures` ties every new state and result to the specification. Byte loops, array cursors,
32-bit sums, masks and shifts are in the imperative form; meanings and whole runs are in the theorems. The `...Meaning` files
say what the specification functions mean without calling on their parts: in octets, in the words of the standards, in the
messages of the peer.

Conventions. `size_t` has the 32 bits of the target. `Byte` is an integer from 0 to 255. The platform appears as
parameters: the outcome of `malloc`, flash, hash and engine submissions, the clock, random numbers, and what an application
does inside its callbacks. SHA-256 is an arbitrary function. The HTTP/2 engine is an environment that numbers request
streams upwards, puts positive ids on stream frames, calls nothing after a callback has failed, and refuses a reset of
stream 0.

Three promises hold only under a condition, and the condition is proved exact.

- Firmware upload: not every failure ends the session. A refused chunk or an early finish leaves it open; see
  `Ota.FailureReleasesExactlyWhenCommitted` and `Ota.AFailureThatDoesNotRelease`.
- Edge rotation: the attempt counter has 32 bits, so a window of attempts across its wrap is fair exactly when the number of
  records divides 2^32; see `SrvPick.RotationIsFair`, `SrvPick.RotationIsUnfair` and `SrvPick.AWrapRepeatsARecord`.
- Header lists: re-encoding gives the same wire exactly when it has no empty piece; see `HeaderCodec.EncodeOfDecode` and
  `HeaderCodec.TightWire`.

`dafny verify dfyconfig.toml` checks the whole project.

## Model

| member | source | states |
|---|---|---|
| `Base64.DecodeOfEncode` | components/esp_cf_tunnel/src/protocol/cf_base64.c:25-105 | decoding the encoding of any byte string gives it back, in both padding modes |
| `Base64.EncodeOfDecode` | components/esp_cf_tunnel/src/protocol/cf_base64.c:25-105 | encoding whatever a text decodes to gives that very text, so accepted texts are canonical: no stray trailing bits, no wrong padding |
| `Base64.EncodeTo` | components/esp_cf_tunnel/src/protocol/cf_base64.c:69-105 | the encoding loop writes exactly the computed length and that text and nothing beside it; the code for every length and capacity; a length past `size_t` is refused |
| `Base64.DecodeTo` | components/esp_cf_tunnel/src/protocol/cf_base64.c:25-67 | the bit-accumulator loop, with 32-bit wrap, writes exactly the decoded bytes; every refusal and its code |
| `Base64Meaning.LettersAreSigns` | components/esp_cf_tunnel/src/protocol/cf_base64.c:72 | the letter of each digit is that of the standard alphabet, A to Z, a to z, 0 to 9, + and / |
| `Base64Meaning.DigitsAreSigns` | components/esp_cf_tunnel/src/protocol/cf_base64.c:10-23 | a byte is a digit exactly when it is in that alphabet |
| `Base64Meaning.TripleIsSpelled` | components/esp_cf_tunnel/src/protocol/cf_base64.c:84-102 | three octets are one 24-bit number, high octet first, spelled by four letters, high bits first |
| `Base64Meaning.LastIsSpelled` | components/esp_cf_tunnel/src/protocol/cf_base64.c:84-102 | one or two last octets give two or three letters with zero low bits, padded with = to four if asked |
| `HeaderCodec.DecodeOfEncode` | components/esp_cf_tunnel/src/protocol/cf_headers.c:55-150 | every list the encoder accepts decodes to itself, duplicates and empty values included |
| `HeaderCodec.EncodeOfDecode` | components/esp_cf_tunnel/src/protocol/cf_headers.c:55-150 | re-encoding an accepted wire gives the wire with its empty pieces dropped, and the encoder accepts it |
| `HeaderCodec.TightWire` | components/esp_cf_tunnel/src/protocol/cf_headers.c:75-81 | a wire is its own normal form exactly when it has no empty piece |
| `HeaderCodec.Decode` | components/esp_cf_tunnel/src/protocol/cf_headers.c:55-108 | the scanning loop fills entries and arena with exactly the specified list, or refuses with the specified code and count zero |
| `HeaderCodec.Encode` | components/esp_cf_tunnel/src/protocol/cf_headers.c:110-150 | the wire written is the specified one for every list and capacity; nothing is written past it |
| `HeaderCodec.Measure` | components/esp_cf_tunnel/src/protocol/cf_headers.c:121-134 | the size computed beforehand equals the length of the wire |
| `HeaderCodec.PutPair` | components/esp_cf_tunnel/src/protocol/cf_headers.c:137-147 | given that size, the two inner encodings whose codes are ignored cannot fail: a pair is always written whole |
| `HeaderMeaning.EncodesExactly` | components/esp_cf_tunnel/src/protocol/cf_headers.c:119-136 | a list is encoded exactly when it has at most 32 headers of at most 4096 octets, names of token characters, values without control characters but tabs, and a wire within 6144 octets and the buffer |
| `HeaderMeaning.TokensAreNames` | components/esp_cf_tunnel/src/protocol/cf_headers.c:4-20 | a name octet is a letter, a figure or one of the fifteen marks |
| `Framing.TotalSize` | components/esp_cf_tunnel/src/protocol/cf_capnp_framing.c:12-30 | the overflow-checked sum is the frame size of the table, or the code that refuses it |
| `Framing.Segment` | components/esp_cf_tunnel/src/protocol/cf_capnp_framing.c:112-140 | a segment is returned exactly for well-framed messages and valid indices, with every other code |
| `Framing.FrameIsTableAndSegments` | components/esp_cf_tunnel/src/protocol/cf_capnp_framing.c:112-140 | after the table, the segments of a well-framed message tile it exactly, and each index is accepted |
| `Framing.SegmentsTile` | components/esp_cf_tunnel/src/protocol/cf_capnp_framing.c:136-138 | the first i segments are the bytes from the table to the start of segment i |
| `Framing.FramesAreWellFramed` | components/esp_cf_tunnel/src/protocol/cf_capnp_framing.c:54-101 | every frame the framer delivers is accepted by the segment reader and fits the buffer |
| `Framing.SplitAppend` | components/esp_cf_tunnel/src/protocol/cf_capnp_framing.c:54-101 | splitting a longer stream is splitting the shorter one and resuming from its residue |
| `Framing.ChunkingIsInvisible` | components/esp_cf_tunnel/src/protocol/cf_capnp_framing.c:54-110 | for every cut of a stream into chunks, frames, bytes consumed, error and residue are those of one split of the whole |
| `Framing.InitFramer` | components/esp_cf_tunnel/src/protocol/cf_capnp_framing.c:32-52 | a framer starts empty on a capacity of 16 to 16384 bytes; any other is refused |
| `Framing.Framer.Take` | components/esp_cf_tunnel/src/protocol/cf_capnp_framing.c:54-101 | the three-phase loop consumes, delivers, fails and keeps exactly what the recursive split says, for any callback verdicts; a framer that has failed takes nothing and keeps everything |
| `Framing.FeedChunks` | components/esp_cf_tunnel/src/protocol/cf_capnp_framing.c:54-110 | the framer object fed any list of chunks and then the end of input delivers, consumes, fails and ends as one split of the whole stream |
| `Framing.Framer.Decide` | components/esp_cf_tunnel/src/protocol/cf_capnp_framing.c:72-98 | one phase change keeps the split of held bytes plus anything to come |
| `Framing.Framer.Deliver` | components/esp_cf_tunnel/src/protocol/cf_capnp_framing.c:92-98 | a complete frame is delivered once and the framer starts afresh, or the callback's code ends the stream |
| `Framing.Framer.Eof` | components/esp_cf_tunnel/src/protocol/cf_capnp_framing.c:103-110 | the end of input is clean exactly when no partial frame is held and no error is set |
| `FramingMeaning.AssembledIsWhole` | components/esp_cf_tunnel/src/protocol/cf_capnp_framing.c:12-30 | a message assembled from one to eight segments as the standard says is recognised at the front of any stream exactly when it fits the buffer, and refused for its size otherwise |
| `FramingMeaning.AssembledReadsBack` | components/esp_cf_tunnel/src/protocol/cf_capnp_framing.c:112-140 | each segment of an assembled message reads back |
| `FramingMeaning.StreamSplits` | components/esp_cf_tunnel/src/protocol/cf_capnp_framing.c:54-101 | a stream of assembled messages splits into exactly them |
| `CapnpReader.LeLoop` | components/esp_cf_tunnel/src/protocol/cf_capnp.c:4-11 | the byte loop computes the little-endian value |
| `CapnpReader.PointerReader.constructor` | components/esp_cf_tunnel/src/protocol/cf_capnp.c:49-67 | a reader holds the segments of a well-framed message and a full budget, or the framing error |
| `CapnpReader.PointerReader.FollowSlot` | components/esp_cf_tunnel/src/protocol/cf_capnp.c:69-185 | masks, shifts and branches follow near, far and double-far pointers as specified; its last `else` cannot be reached |
| `CapnpReader.PointerReader.FieldOf` | components/esp_cf_tunnel/src/protocol/cf_capnp.c:187-199 | reader and value after a field access |
| `CapnpReader.PointerReader.ElementAt` | components/esp_cf_tunnel/src/protocol/cf_capnp.c:200-227 | reader and value after an element access, for pointer and composite lists |
| `CapnpReader.PointerReader.ReadUInt` | components/esp_cf_tunnel/src/protocol/cf_capnp.c:228-242 | number and reader, with the default zero past the data section |
| `CapnpReader.PointerReader.ReadData` | components/esp_cf_tunnel/src/protocol/cf_capnp.c:243-267 | bytes and reader, with the terminator check of text |
| `CapnpSafety.InitIsSound` | components/esp_cf_tunnel/src/protocol/cf_capnp.c:49-67 | on any byte string the reader gets word-aligned bounded segments or an error |
| `CapnpSafety.FollowInside` | components/esp_cf_tunnel/src/protocol/cf_capnp.c:69-185 | whatever a slot holds, the value found lies wholly inside one segment at the depth asked for, and the budget falls when a slot is read |
| `CapnpSafety.FieldInside` | components/esp_cf_tunnel/src/protocol/cf_capnp.c:187-199 | fields of returned structs are in range, no 32-bit or 8-bit sum wraps, and a child is one level deeper |
| `CapnpSafety.AtInside` | components/esp_cf_tunnel/src/protocol/cf_capnp.c:200-227 | elements of returned lists are in range, no product or sum wraps, and a child is one level deeper |
| `CapnpSafety.DataInside` | components/esp_cf_tunnel/src/protocol/cf_capnp.c:243-267 | the range check of a data read never fails on a value the reader returned |
| `CapnpSafety.EverySessionIsSafe` | components/esp_cf_tunnel/src/protocol/cf_capnp.c:18-267 | for every frame and every sequence of calls all values, numbers and views are in bounds, and at most 4096 pointer slots are followed |
| `CapnpSafety.FollowSpends` | components/esp_cf_tunnel/src/protocol/cf_capnp.c:69-185 | following a slot spends exactly its charges in order: 1 for the slot, 1 or 2 for a landing pad, then the words of the object, at least one, or a composite list with its tag; all of them unless one fails |
| `CapnpSafety.CallSpends` | components/esp_cf_tunnel/src/protocol/cf_capnp.c:30-267 | every call spends exactly its charges, number reads and composite elements included, and nothing else |
| `CapnpSafety.SessionSpends` | components/esp_cf_tunnel/src/protocol/cf_capnp.c:30-267 | over any calls, initial minus current budget is the sum of all charges of the calls before the first failure and of those the failing call made |
| `CapnpSafety.BudgetIsSumOfCharges` | components/esp_cf_tunnel/src/protocol/cf_capnp.c:30-267 | on any message, cyclic ones included, 4096 minus the budget left equals the sum of all charges as long as no error has occurred |
| `CapnpSafety.ChargeCoversObject` | components/esp_cf_tunnel/src/protocol/cf_capnp.c:30-41 | an object is charged for every word it spans, and for no more unless it is a composite list with unused words |
| `CapnpSafety.ErrorIsSticky` | components/esp_cf_tunnel/src/protocol/cf_capnp.c:69-267 | after the first error every call answers null, zero or empty and changes nothing |
| `CapnpMeaning.FollowFinds` | components/esp_cf_tunnel/src/protocol/cf_capnp.c:69-185 | whatever following a slot finds is what the words of the message locate: a near pointer counts from the next word, a far pointer from its pad, a double-far pointer gives segment and word while the tag gives the sizes, a composite list starts behind its tag |
| `CapnpMeaning.FollowReaches` | components/esp_cf_tunnel/src/protocol/cf_capnp.c:69-185 | whatever a slot locates by these rules, following it finds, up to 32 levels and within the budget |
| `CapnpMeaning.LocatesOne` | components/esp_cf_tunnel/src/protocol/cf_capnp.c:69-185 | a slot locates one value at most |
| `CapnpMeaning.FarReadsAsItsPad` | components/esp_cf_tunnel/src/protocol/cf_capnp.c:86-128 | a one-word far pointer reads as its landing pad does, read as a slot, at the same depth |
| `CapnpMeaning.FollowNull` | components/esp_cf_tunnel/src/protocol/cf_capnp.c:83-85 | an empty slot is null and no error |
| `CapnpMeaning.ListFillsWords` | components/esp_cf_tunnel/src/protocol/cf_capnp.c:142-176 | a list fills the fewest words that hold count elements of 0, 1, 8, 16, 32 or 64 bits |
| `CapnpObjects.ReadSlot` | components/esp_cf_tunnel/src/protocol/cf_capnp.c:69-186 | in a message spread over its segments in any way, following a slot finds the object it refers to |
| `CapnpObjects.ReadField` | components/esp_cf_tunnel/src/protocol/cf_capnp.c:187-199 | a field is the object in that slot of the record, null if the record has no such slot |
| `CapnpObjects.ReadItem` | components/esp_cf_tunnel/src/protocol/cf_capnp.c:200-227 | an element of a composite list is that item of the table |
| `CapnpObjects.ReadNum` | components/esp_cf_tunnel/src/protocol/cf_capnp.c:228-242 | a number is the one in the data of the record, zero if the data is shorter |
| `CapnpObjects.ReadBytes` | components/esp_cf_tunnel/src/protocol/cf_capnp.c:243-267 | data and text are the bytes of the object |
| `CapnpLayouts.MessageCarries` | components/esp_cf_tunnel/src/protocol/cf_capnp.c:294-362 | the messages the builder writes carry their trees in this sense |
| `CapnpTree.BuildIsLayout` | components/esp_cf_tunnel/src/protocol/cf_capnp.c:307-351 | building a tree slot by slot appends its canonical layout and touches only its own slot, so later writes never disturb earlier objects |
| `CapnpTree.SegmentIsBuilt` | components/esp_cf_tunnel/src/protocol/cf_capnp.c:294-362 | a whole message built by the builder is the canonical segment of its tree |
| `CapnpTree.FollowDenotes` | components/esp_cf_tunnel/src/protocol/cf_capnp.c:69-185 | the reader finds in a laid-out slot exactly the node laid there, at its exact cost; a zero-sized struct reads back non-null |
| `CapnpTree.RootDenotes` | components/esp_cf_tunnel/src/protocol/cf_capnp.c:49-186 | reading the frame of a tree starts at that tree with no error |
| `CapnpTree.FieldDenotes` | components/esp_cf_tunnel/src/protocol/cf_capnp.c:187-199 | the field of a value that denotes a struct denotes that field |
| `CapnpTree.ItemDenotes` | components/esp_cf_tunnel/src/protocol/cf_capnp.c:200-227 | the item of a value that denotes a pointer list denotes that item |
| `CapnpTree.NumberDenotes` | components/esp_cf_tunnel/src/protocol/cf_capnp.c:228-242 | a number read from a value that denotes a struct is the number in its data |
| `CapnpTree.BlobDenotes` | components/esp_cf_tunnel/src/protocol/cf_capnp.c:243-267 | the bytes read from a value that denotes a blob are the bytes put in |
| `CapnpBuilder.Builder.AllocWords` | components/esp_cf_tunnel/src/protocol/cf_capnp.c:269-282 | zeroed words at the end of the segment, or a sticky limit error and no change |
| `CapnpBuilder.Builder.SetWord` | components/esp_cf_tunnel/src/protocol/cf_capnp.c:283-293 | one slot changes, or an argument error and no change |
| `CapnpBuilder.Builder.StructAt` | components/esp_cf_tunnel/src/protocol/cf_capnp.c:307-316 | a pointer in its slot and an empty struct at the end, for every slot of the grown segment; limit and slot errors |
| `CapnpBuilder.Builder.ListAt` | components/esp_cf_tunnel/src/protocol/cf_capnp.c:330-335 | a pointer in its slot and an empty pointer list at the end, for every slot of the grown segment, with the bits a wrapped distance sets; limit and slot errors |
| `CapnpBuilder.Builder.SetUInt` | components/esp_cf_tunnel/src/protocol/cf_capnp.c:317-329 | only the addressed bytes change, at a 32-bit offset, to the little-endian value; width and range errors change nothing |
| `CapnpBuilder.Builder.BlobAt` | components/esp_cf_tunnel/src/protocol/cf_capnp.c:336-351 | a pointer in its slot and the padded, optionally terminated bytes at the end, for every slot of the grown segment; the code of each failure |
| `CapnpBuilder.Builder.End` | components/esp_cf_tunnel/src/protocol/cf_capnp.c:352-362 | the frame is the segment table and the segment built |
| `RpcMessages.FrameFits` | components/esp_cf_tunnel/src/protocol/cf_rpc.c:29-65 | every message of every valid argument fits the 1024-byte buffer, so encoding cannot fail |
| `RegistrationRoundTrip.RegistrationReadsBack` | components/esp_cf_tunnel/src/protocol/cf_rpc.c:92-158 | reading a registration back with the pointer reader recovers every credential and option exactly, with no bounds, depth or budget error |
| `RegistrationRoundTrip.UnregistrationReadsBack` | components/esp_cf_tunnel/src/protocol/cf_rpc.c:159-175 | the same for the unregistration call; its empty parameter struct reads back non-null |
| `RpcWriter.WriteRegister` | components/esp_cf_tunnel/src/protocol/cf_rpc.c:125-157 | the sequence of builder calls writes exactly the frame of the registration tree and never fails |
| `RpcWriter.WriteUnregister` | components/esp_cf_tunnel/src/protocol/cf_rpc.c:168-171 | the builder calls write exactly the frame of the unregistration tree |
| `RpcWriter.WriteFinish` | components/esp_cf_tunnel/src/protocol/cf_rpc.c:29-38 | the 40-byte frame of a Finish |
| `RpcWriter.WriteRelease` | components/esp_cf_tunnel/src/protocol/cf_rpc.c:39-48 | the frame of a Release, also behind a Finish in the same buffer |
| `RpcWriter.WriteAbort` | components/esp_cf_tunnel/src/protocol/cf_rpc.c:57-63 | the frame of the Abort with its fixed reason |
| `RpcWriter.WriteBootstrap` | components/esp_cf_tunnel/src/protocol/cf_rpc.c:85-87 | the frame of the Bootstrap question |
| `Rpc.ReceiveEdges` | components/esp_cf_tunnel/src/protocol/cf_rpc.c:243-323 | on any frame, an active client returns OK along its one legal edge with exactly its Finish and Release, or ends FAILED having sent nothing, one Abort or one exception Finish |
| `Rpc.EveryRunIsOnScript` | components/esp_cf_tunnel/src/protocol/cf_rpc.c:49-323 | in every run the messages sent are a prefix of the script Bootstrap(0), Finish(0), Call(1), Finish(1), Call(2), Finish(2), Release, cut short at most once, and the capability is held exactly between import and release |
| `Rpc.FinalIsAbsorbing` | components/esp_cf_tunnel/src/protocol/cf_rpc.c:251-255 | FAILED, REJECTED and CLOSED are never left and send nothing |
| `RpcReplies.AcceptanceRegisters` | components/esp_cf_tunnel/src/protocol/cf_rpc.c:202-242 | a reply with response tag 1, a 16-byte id, a printable location and the managed bit registers the client under them, however the message is laid out |
| `RpcReplies.RejectionRejects` | components/esp_cf_tunnel/src/protocol/cf_rpc.c:213-225 | a reply with tag 0 rejects the client with its retry bit and the ceiling of its nanoseconds in milliseconds, negative ones none |
| `RpcReplies.RejectionDelaysTheRetry` | components/esp_cf_tunnel/src/transport/esp_cf_tunnel.c:115-136 | such a reply with the retry bit delays the next attempt by at least that, up to 2^32-1 ms |
| `RpcReplies.BootstrapImports` | components/esp_cf_tunnel/src/protocol/cf_rpc.c:183-201 | a bootstrap answer makes the client ready with exactly the capability it names |
| `RpcReplies.UnregisteredCloses` | components/esp_cf_tunnel/src/protocol/cf_rpc.c:300-321 | the answer to the unregistration closes the client, finishes question 2 and releases the capability |
| `RpcReplies.ExceptionFails` | components/esp_cf_tunnel/src/protocol/cf_rpc.c:282-289 | an exception finishes its question and fails the client; it is no rejection |
| `RpcReplies.WrongAnswerFails` | components/esp_cf_tunnel/src/protocol/cf_rpc.c:280-281 | a Return for another question fails the client with an Abort |
| `RpcReplies.AbortFails` | components/esp_cf_tunnel/src/protocol/cf_rpc.c:264-268 | an Abort fails the client and nothing is sent |
| `RpcOutcomes.RegisteredExactlyOnAcceptance` | components/esp_cf_tunnel/src/protocol/cf_rpc.c:202-313 | a client is registered exactly on an acceptance, with its id and location, and rejected exactly on a rejection; any other readable message fails it |
| `RpcOutcomes.ReadyExactlyOnBootstrap` | components/esp_cf_tunnel/src/protocol/cf_rpc.c:183-313 | a client becomes ready exactly on a bootstrap answer |
| `RpcOutcomes.ClosedExactlyOnUnregistered` | components/esp_cf_tunnel/src/protocol/cf_rpc.c:295-313 | a client closes exactly on the answer to its unregistration |
| `RpcReadBack.SuchRepliesExist` | components/esp_cf_tunnel/src/protocol/cf_rpc.c:202-242 | for every id and printable location there is a frame that registers the client under them |
| `RpcReadBack.BootstrapReadsBack` | components/esp_cf_tunnel/src/protocol/cf_rpc.c:77-91 | read back, the first message is the bootstrap of question 0 |
| `RpcReadBack.FinishReadsBack` | components/esp_cf_tunnel/src/protocol/cf_rpc.c:29-38 | read back, a Finish names its question and its flag is inverted |
| `RpcReadBack.ReleaseReadsBack` | components/esp_cf_tunnel/src/protocol/cf_rpc.c:39-48 | read back, a Release gives back one reference of the capability |
| `RpcReadBack.AbortReadsBack` | components/esp_cf_tunnel/src/protocol/cf_rpc.c:49-65 | read back, an Abort carries its reason as text |
| `RpcReadBack.RegistersExactly` | components/esp_cf_tunnel/src/protocol/cf_rpc.c:112-124 | a registration is sent exactly by a ready client for arguments of the documented form |
| `RpcReadBack.FeatureTexts` | components/esp_cf_tunnel/src/protocol/cf_rpc.c:139-148 | the feature names sent are allow_remote_config and serialized_headers, by their bits |
| `RpcClient.RpcConnection.BeginRpc` | components/esp_cf_tunnel/src/protocol/cf_rpc.c:77-91 | state, code and bytes written are those of the specification |
| `RpcClient.RpcConnection.RegisterRpc` | components/esp_cf_tunnel/src/protocol/cf_rpc.c:103-158 | state, code and bytes written are those of the specification, for all credentials and options |
| `RpcClient.RpcConnection.UnregisterRpc` | components/esp_cf_tunnel/src/protocol/cf_rpc.c:159-175 | state, code and bytes written are those of the specification |
| `RpcClient.RpcConnection.ReceiveRpc` | components/esp_cf_tunnel/src/protocol/cf_rpc.c:243-323 | state, code and bytes written are those of the specification, for every incoming frame |
| `ControlQueue.RunFitsQueue` | components/esp_cf_tunnel/src/protocol/cf_rpc.c:29-158 | all messages of one control stream together are at most 952 bytes |
| `ControlQueue.EveryControlRunIsLossless` | components/esp_cf_tunnel/src/transport/esp_cf_tunnel.c:137-143 | in every interleaving no append is ever refused, and bytes sent = bytes handed out ++ bytes queued |
| `ControlQueue.EofMeansEverythingHanded` | components/esp_cf_tunnel/src/transport/esp_cf_tunnel.c:219-231 | the end of the stream is reported only when the whole script has been sent and handed out |
| `ControlStream.OutputIsOfTheStream` | components/esp_cf_tunnel/src/transport/esp_cf_tunnel.c:144-169 | what the control stream answers through framer and RPC client is a function of the bytes received, at most 952 bytes |
| `ControlStream.CuttingIsInvisible` | components/esp_cf_tunnel/src/transport/esp_cf_tunnel.c:199-209 | two cuttings of the same bytes into data chunks give the same output, frames and error |
| `ControlStream.OutputOnlyGrows` | components/esp_cf_tunnel/src/transport/esp_cf_tunnel.c:144-169 | a further chunk never takes back or changes what was emitted |
| `ControlStream.QueueHoldsTheOutput` | components/esp_cf_tunnel/src/transport/esp_cf_tunnel.c:137-169 | whatever is handed out meanwhile, handed out and queued bytes are that output, and no append is refused |
| `ControlStream.RefusalIsFinal` | components/esp_cf_tunnel/src/transport/esp_cf_tunnel.c:144-169 | a frame the client refuses ends the conversation, unless only the registration arguments were refused |
| `ControlQueue.ByteQueue.AppendRpc` | components/esp_cf_tunnel/src/transport/esp_cf_tunnel.c:137-143 | the bytes are queued behind the others, or refused without change |
| `ControlQueue.ByteQueue.ReadOut` | components/esp_cf_tunnel/src/transport/esp_cf_tunnel.c:219-231 | the oldest bytes are handed out and the rest moved to the front; end of stream exactly when closed and drained |
| `DnsNames.ReadNameMeans` | components/esp_cf_tunnel/src/protocol/cf_dns.c:69-112 | the reader accepts exactly the names whose label expansion (section 4.1.4 of RFC 1035) exists within sixteen backward pointers, is proper and has at most 253 characters; it yields the lower-case text and the in-place end, strictly forward and inside the packet |
| `DnsNames.ExpandLabels` | components/esp_cf_tunnel/src/protocol/cf_dns.c:92-100 | every label of a readable name has 1 to 63 octets, and its encoding ends inside the packet |
| `DnsNames.ReadNameInto` | components/esp_cf_tunnel/src/protocol/cf_dns.c:69-112 | the loop terminates on every packet and writes exactly that text and its terminator, or returns the specified error and leaves the offset |
| `DnsNames.CopyLabel` | components/esp_cf_tunnel/src/protocol/cf_dns.c:104-110 | a label is copied in lower case exactly when all its characters are allowed |
| `DnsQuery.CutJoins` | components/esp_cf_tunnel/src/protocol/cf_dns.c:38-56 | cutting a name at its dots is the only reading of it as labels |
| `DnsQuery.QuestionReadsBack` | components/esp_cf_tunnel/src/protocol/cf_dns.c:22-68 | an accepted query has name length + 29 bytes and its question reads back as the lower-case name, type and class |
| `DnsQuery.PrintQuery` | components/esp_cf_tunnel/src/protocol/cf_dns.c:22-68 | for every name, type and capacity the code and the bytes written are the specified ones; nothing is reported written on failure |
| `DnsQuery.PutName` | components/esp_cf_tunnel/src/protocol/cf_dns.c:38-56 | the label loop accepts exactly the names with good labels and prints them behind their lengths |
| `DnsMeaning.QueryInOctets` | components/esp_cf_tunnel/src/protocol/cf_dns.c:33-66 | a query carries its id in network order, asks a standard question with recursion desired, counts 1, 0, 0, 1, and ends in one empty OPT record of type 41 for 1232 octets (section 6.1.2 of RFC 6891) |
| `DnsMeaning.QueriesExactly` | components/esp_cf_tunnel/src/protocol/cf_dns.c:22-56 | a query is printed exactly for type 1 or 33, a name of 1 to 253 octets made of words of 1 to 63 label octets between dots, and room for 29 octets more |
| `DnsMeaning.NamesInNumbers` | components/esp_cf_tunnel/src/protocol/cf_dns.c:69-112 | a name is read exactly when it expands over at most 16 pointers to words of label octets, 253 octets with the dots |
| `DnsMeaning.PointerMeans` | components/esp_cf_tunnel/src/protocol/cf_dns.c:79-91 | a compression pointer is 14 bits of offset and stands for the earlier name there |
| `DnsMeaning.EchoedReplyParses` | components/esp_cf_tunnel/src/protocol/cf_dns.c:127 | a reply that echoes the first two octets of the query is accepted under its id |
| `DnsMeaning.HeaderInOctets` | components/esp_cf_tunnel/src/protocol/cf_dns.c:123-132 | a reply header is accepted exactly for 12 to 1232 octets, the right id, a whole standard response without error, and one question |
| `DnsMeaning.HeaderRefusals` | components/esp_cf_tunnel/src/protocol/cf_dns.c:127-132 | truncated responses, error codes and everything else are refused with their own codes |
| `DnsMeaning.AddressInOctets` | components/esp_cf_tunnel/src/protocol/cf_dns.c:177-191 | an address is taken exactly when it has four octets, the first 1 to 223 but not 127 |
| `DnsMeaning.ServiceInOctets` | components/esp_cf_tunnel/src/protocol/cf_dns.c:192-211 | a service record is taken exactly for port 7844 and a longer name under argotunnel.com that fills its data |
| `DnsReply.WellFormedReplyParses` | components/esp_cf_tunnel/src/protocol/cf_dns.c:113-225 | every well-formed reply with 1 to 16 conforming answers parses to exactly their records, in order |
| `DnsReply.AcceptedReplyIsWellFormed` | components/esp_cf_tunnel/src/protocol/cf_dns.c:113-225 | every accepted packet is such a reply: its items tile it exactly and the records are those of the wanted ones |
| `DnsReply.AnswerConforms` | components/esp_cf_tunnel/src/protocol/cf_dns.c:167-213 | an answer is stored exactly when it meets the address or service policy |
| `DnsReply.AnsweredNameIsLower` | components/esp_cf_tunnel/src/protocol/cf_dns.c:136-137 | only a lower-case name can be answered |
| `DnsReply.DnsAnswer.ParseReply` | components/esp_cf_tunnel/src/protocol/cf_dns.c:113-225 | the loop over a packet fills the answer with the specified records, or returns the specified error with the answer blank |
| `DnsRoundTrip.ReplyReadsBack` | components/esp_cf_tunnel/src/protocol/cf_dns.c:113-225 | printing 1 to 16 presentable address or service records as a reply with compressed owner names and parsing it gives the same records back |
| `DnsRoundTrip.PointerReads` | components/esp_cf_tunnel/src/protocol/cf_dns.c:79-91 | a compression pointer to a printed name reads as that name and ends after its two octets |
| `SrvPick.SortByPriority` | components/esp_cf_tunnel/src/transport/esp_cf_tunnel.c:327-330 | the exchange sort leaves a priority-sorted permutation and touches nothing behind it |
| `SrvPick.FindClass` | components/esp_cf_tunnel/src/transport/esp_cf_tunnel.c:332-334 | the two loops find the longest run of equal priority around the start |
| `SrvPick.ClassIsComplete` | components/esp_cf_tunnel/src/transport/esp_cf_tunnel.c:332-334 | in sorted records that run is the whole priority class |
| `SrvPick.SharesAreWeights` | components/esp_cf_tunnel/src/transport/esp_cf_tunnel.c:335-340 | of the W residues exactly weight[i] select record i, so a record without weight is never picked |
| `SrvPick.SelectsOnce` | components/esp_cf_tunnel/src/transport/esp_cf_tunnel.c:337-340 | a residue selects one record |
| `SrvPick.PickByWeight` | components/esp_cf_tunnel/src/transport/esp_cf_tunnel.c:337-340 | the subtracting loop ends on the record whose share holds the value |
| `SrvPick.TotalWeight` | components/esp_cf_tunnel/src/transport/esp_cf_tunnel.c:335-336 | the 32-bit sum of the weights does not wrap |
| `SrvPick.Choose` | components/esp_cf_tunnel/src/transport/esp_cf_tunnel.c:331-340 | the pick stays in the class of the rotation start, by weight if there is any |
| `SrvPick.RotationIsFair` | components/esp_cf_tunnel/src/transport/esp_cf_tunnel.c:331 | over as many consecutive attempts as records, each priority class is used as often as it has members, if the window does not cross the 32-bit wrap of the attempt counter or the count divides 2^32 |
| `SrvPick.RotationIsUnfair` | components/esp_cf_tunnel/src/transport/esp_cf_tunnel.c:327-331 | in every other case some sorted answer of that size, 1 to 16 records, is served unfairly, so the condition is exact |
| `SrvPick.AWrapRepeatsARecord` | components/esp_cf_tunnel/src/transport/esp_cf_tunnel.c:327-331 | three sorted records around the wrap: the first is used twice, the last not at all |
| `HeapQuota.AllocateSound` | components/esp_cf_tunnel/src/transport/cf_h2.c:29-43 | when memory is there, a block is given exactly if it and its header fit the quota; refusals change nothing |
| `HeapQuota.ResizeFailureIsClean` | components/esp_cf_tunnel/src/transport/cf_h2.c:54-65 | a failed resize leaves the old block and everything else intact |
| `HeapQuota.ResizeKeepsPrefix` | components/esp_cf_tunnel/src/transport/cf_h2.c:54-65 | a successful resize keeps the common prefix, frees the old block and touches no other |
| `HeapQuota.ResizeChargesBoth` | components/esp_cf_tunnel/src/transport/cf_h2.c:54-65 | while a resize holds both blocks both are charged, within the quota, and the peak records it |
| `HeapQuota.ZeroAllocateIsExact` | components/esp_cf_tunnel/src/transport/cf_h2.c:66-73 | with the overflow guard the product is exact: the result is that of an allocation in unbounded arithmetic |
| `HeapQuota.ZeroAllocateIsZero` | components/esp_cf_tunnel/src/transport/cf_h2.c:66-73 | the block holds n * size zeros |
| `HeapQuota.EveryRunBalances` | components/esp_cf_tunnel/src/transport/cf_h2.c:29-73 | in every run the counter equals the charges of live blocks, current <= peak <= limit, and the peak is exactly the high-water mark, resize moments included |
| `HeapQuota.NothingLiveIsNothingCharged` | components/esp_cf_tunnel/src/transport/cf_h2.c:44-53 | the counter is zero exactly when nothing is live |
| `HeapQuota.QuotaHeap.Get` | components/esp_cf_tunnel/src/transport/cf_h2.c:29-43 | the allocation callback does what is specified and keeps the books |
| `HeapQuota.QuotaHeap.Free` | components/esp_cf_tunnel/src/transport/cf_h2.c:44-53 | the free callback does what is specified and keeps the books |
| `HeapQuota.QuotaHeap.Regrow` | components/esp_cf_tunnel/src/transport/cf_h2.c:54-65 | the resize callback does what is specified and keeps the books |
| `HeapQuota.QuotaHeap.GetZeroed` | components/esp_cf_tunnel/src/transport/cf_h2.c:66-73 | the zeroing callback does what is specified and keeps the books |
| `AdmissionSafety.EveryRunIsSound` | components/esp_cf_tunnel/src/transport/cf_h2.c:87-214 | in every run with rising request streams: occupied slots have distinct ids and are counted by `active_streams`, at most the limit of HTTP, one control and one config stream are admitted and un-reset, stored routing headers have no duplicates, and each stream has the history its slot records |
| `AdmissionSafety.EveryStreamIsClosedOnce` | components/esp_cf_tunnel/src/transport/cf_h2.c:319-328 | after destroy every stream that got a slot has been opened, requested at most once, answered at most once after that, and closed exactly once |
| `AdmissionSafety.ApplySound` | components/esp_cf_tunnel/src/transport/cf_h2.c:87-214 | every callback and call keeps that invariant, whatever the application does inside its own callbacks |
| `AdmissionSafety.ReceivedFrameSound` | components/esp_cf_tunnel/src/transport/cf_h2.c:144-179 | so does a received frame, through refusal, admission, re-entrant calls and end of stream |
| `AdmissionSafety.BeginHeadersSound` | components/esp_cf_tunnel/src/transport/cf_h2.c:98-117 | so does the start of a header block |
| `AdmissionSafety.OnHeaderSound` | components/esp_cf_tunnel/src/transport/cf_h2.c:118-143 | so does a header, stored or refused |
| `AdmissionSafety.ReceivedDataSound` | components/esp_cf_tunnel/src/transport/cf_h2.c:180-203 | so does data, delivered in pieces |
| `AdmissionSafety.RoutingIsUnambiguous` | components/esp_cf_tunnel/src/transport/cf_h2.c:129-133 | no matter which header names the upgrade, the stream kind is the same |
| `AdmissionMeaning.RoutingMeans` | components/esp_cf_tunnel/src/transport/cf_h2.c:156-173 | once its headers are complete a stream is admitted as Control, Config or Http exactly when the upgrade header says control-stream, update-configuration or nothing, and there is room for that kind; else it is reset or the engine stops, and it is not requested |
| `AdmissionMeaning.BeginMeans` | components/esp_cf_tunnel/src/transport/cf_h2.c:98-117 | a new request stream gets a slot exactly when fewer than six are taken, else it is refused and counted |
| `AdmissionMeaning.HeaderMeans` | components/esp_cf_tunnel/src/transport/cf_h2.c:118-143 | a header is stored exactly within 48 headers and 8192 octets and if it repeats no pseudo or connector field; else its stream is reset or the engine stops |
| `AdmissionMeaning.RespondMeans` | components/esp_cf_tunnel/src/transport/cf_h2.c:363-387 | a response is taken exactly for a requested, unanswered, un-reset stream with a status of 200 to 599 and proper headers |
| `AdmissionMeaning.DeliveryMeans` | components/esp_cf_tunnel/src/transport/cf_h2.c:190-198 | pieces that are taken change nothing by themselves, a refused one resets the stream |
| `AdmissionMeaning.DataRenews` | components/esp_cf_tunnel/src/transport/cf_h2.c:190-202 | data that is taken renews the progress of its stream and nothing else |
| `AdmissionMeaning.EndMeans` | components/esp_cf_tunnel/src/transport/cf_h2.c:174-177 | the end of a stream is delivered with the application's calls, and its refusal resets the stream |
| `AdmissionMeaning.TickMeans` | components/esp_cf_tunnel/src/transport/cf_h2.c:406-417 | a tick the engine obeys resets exactly the streams without progress for more than 15 s, but no admitted control stream |
| `AdmissionSafety.TickLeavesNoneIdle` | components/esp_cf_tunnel/src/transport/cf_h2.c:406-417 | when the engine takes every reset, no stream is idle for more than 15 s after a tick |
| `AdmissionTable.H2Session.ResetStream` | components/esp_cf_tunnel/src/transport/cf_h2.c:87-97 | session and code are the specified ones |
| `AdmissionTable.H2Session.OnBeginHeaders` | components/esp_cf_tunnel/src/transport/cf_h2.c:98-117 | the session afterwards is the specified one |
| `AdmissionTable.H2Session.OnHeaderField` | components/esp_cf_tunnel/src/transport/cf_h2.c:118-143 | the session afterwards is the specified one |
| `AdmissionTable.H2Session.OnFrame` | components/esp_cf_tunnel/src/transport/cf_h2.c:144-179 | the session afterwards is the specified one, settings and GOAWAY notes included |
| `AdmissionTable.H2Session.OnData` | components/esp_cf_tunnel/src/transport/cf_h2.c:180-203 | the session afterwards is the specified one |
| `AdmissionTable.H2Session.OnClosed` | components/esp_cf_tunnel/src/transport/cf_h2.c:204-214 | the session afterwards is the specified one, whatever the application calls while it is told |
| `AdmissionTable.H2Session.RespondTo` | components/esp_cf_tunnel/src/transport/cf_h2.c:363-387 | session and code are the specified ones, header serialization and the single content length included |
| `AdmissionTable.H2Session.CheckFields` | components/esp_cf_tunnel/src/transport/cf_h2.c:375-384 | response headers are accepted exactly when they serialize and give at most one content length |
| `AdmissionTable.H2Session.TickAt` | components/esp_cf_tunnel/src/transport/cf_h2.c:406-417 | the session afterwards is the specified one |
| `AdmissionTable.H2Session.Finish` | components/esp_cf_tunnel/src/transport/cf_h2.c:319-325 | every stream still in a slot is reported closed, in slot order |
| `AdmissionTable.H2Session.HeaderValue` | components/esp_cf_tunnel/src/transport/cf_h2.c:81-86 | the value of the first header of that name, or nothing |
| `AdmissionTable.H2Session.CountAdmitted` | components/esp_cf_tunnel/src/transport/cf_h2.c:164-165 | the number of admitted, un-reset streams of a kind |
| `Lifecycle.EveryReachableLifeIsCoherent` | components/esp_cf_tunnel/src/cf_lifecycle.c:4-154 | in every reachable state ONLINE holds exactly when registered and configured; WAIT_CONFIG means registered only, CONFIG_FAILED not configured, REGISTERING not registered, earlier and backoff states neither; connected states need network and time, and STOPPING is never entered |
| `Lifecycle.ApplyCoherent` | components/esp_cf_tunnel/src/cf_lifecycle.c:4-154 | every operation keeps that, and AUTH_FAILED is left only by stop |
| `LifecycleMeaning.LadderSteps` | components/esp_cf_tunnel/src/cf_lifecycle.c:57-81 | each connection event takes its own step of the ladder in a prepared life; anywhere else it is an error and changes nothing |
| `LifecycleMeaning.TheWayOnline` | components/esp_cf_tunnel/src/cf_lifecycle.c:57-99 | from discovery the events lead through Connect, Tls, Http2 and Registering to WaitConfig and Online, in either order of registration and configuration |
| `LifecycleMeaning.RejectedUpdate` | components/esp_cf_tunnel/src/cf_lifecycle.c:106-111 | a rejected update leaves a configured life exactly as it was |
| `LifecycleMeaning.Credentials` | components/esp_cf_tunnel/src/cf_lifecycle.c:82-111 | rejected credentials end the run; events of registration and configuration before it began are errors |
| `LifecycleMeaning.Waits` | components/esp_cf_tunnel/src/cf_lifecycle.c:4-55 | start, environment, tick and stop lead where the missing network or time says |
| `LifecycleMeaning.RetryWindow` | components/esp_cf_tunnel/src/cf_lifecycle.c:117-139 | the deadline after k failures lies between half and the whole of 1000 * 2^k ms, at most a minute, from now, unless the hint is longer |
| `LifecycleMeaning.NoRetry` | components/esp_cf_tunnel/src/cf_lifecycle.c:122-124 | a life that waits, has ended or is stopped cannot be retried |
| `Lifecycle.BackoffHolds` | components/esp_cf_tunnel/src/cf_lifecycle.c:36-56 | BACKOFF is left only by stop or by a tick at or after its deadline, whatever the network does |
| `Lifecycle.RetriesAreSpaced` | components/esp_cf_tunnel/src/cf_lifecycle.c:117-145 | two retries with no stop between are at least half the ceiling of the first apart, and its hint is honoured |
| `Lifecycle.PacingOverWholeRuns` | components/esp_cf_tunnel/src/cf_lifecycle.c:117-145 | over any run without stop the k-th retry and any later one are at least min(500 * 2^k, 30000) ms apart |
| `Lifecycle.FailuresCountRetries` | components/esp_cf_tunnel/src/cf_lifecycle.c:117-139 | without a stop the failure counter is the number of retries, saturating |
| `Lifecycle.RetryMsIsCeiling` | components/esp_cf_tunnel/src/protocol/cf_rpc.c:219-220 | signed nanoseconds become the ceiling in milliseconds, negative ones none |
| `Lifecycle.ServerDelayIsHonoured` | components/esp_cf_tunnel/src/transport/esp_cf_tunnel.c:115-136 | a rejection that asks for d nanoseconds delays the next attempt by at least min(ceil(max(d,0)/10^6), 2^32-1) ms; a permanent one ends in AUTH_FAILED |
| `Lifecycle.LifeRecord.StartRun` | components/esp_cf_tunnel/src/cf_lifecycle.c:23-34 | record and code are the specified ones |
| `Lifecycle.LifeRecord.SetEnvironment` | components/esp_cf_tunnel/src/cf_lifecycle.c:36-55 | the record afterwards is the specified one |
| `Lifecycle.LifeRecord.AdvanceBy` | components/esp_cf_tunnel/src/cf_lifecycle.c:57-115 | record and code are the specified ones |
| `Lifecycle.LifeRecord.RetryLater` | components/esp_cf_tunnel/src/cf_lifecycle.c:117-139 | record and code are the specified ones, with jitter, hint and 64-bit saturation |
| `Lifecycle.LifeRecord.TickAt` | components/esp_cf_tunnel/src/cf_lifecycle.c:141-145 | the record afterwards is the specified one |
| `Lifecycle.LifeRecord.StopRun` | components/esp_cf_tunnel/src/cf_lifecycle.c:147-154 | the record afterwards is the specified one |
| `Ota.EveryRunIsSafe` | examples/system_monitor/main/monitor_ota.c:26-127 | in every run bytes written = bytes hashed = the accepted chunks = a prefix of length received <= total <= slot size; no handle leaks; everything selected or ready was verified |
| `Ota.OnlyVerifiedImagesAreSelected` | examples/system_monitor/main/monitor_ota.c:100-116 | only finish selects a boot image, and only the complete upload whose digest is the one given at start |
| `OtaMeaning.UploadCompletes` | examples/system_monitor/main/monitor_ota.c:47-116 | on a willing platform an upload in chunks of 1 to 1408 bytes, the first of at least 288, ends ready exactly when it has the announced size and digest, and the slot then holds it |
| `OtaMeaning.UploadProceeds` | examples/system_monitor/main/monitor_ota.c:72-99 | every such chunk at its offset is taken |
| `OtaMeaning.ChunkRestartsTheMinute` | examples/system_monitor/main/monitor_ota.c:98-127 | a chunk that was taken keeps the session alive for exactly 60 s |
| `OtaMeaning.HexValues` | examples/system_monitor/main/monitor_ota.c:36-37 | figures and letters of either case are digits in their order, nothing else is one |
| `OtaMeaning.StartsExactly` | examples/system_monitor/main/monitor_ota.c:47-71 | an upload starts exactly when none is running or ready, for an image of at least 288 bytes that fits the slot and a full digest |
| `OtaMeaning.OtherIdsChangeNothing` | examples/system_monitor/main/monitor_ota.c:34-35 | a request under any other id fails and changes nothing |
| `OtaMeaning.AbortEnds` | examples/system_monitor/main/monitor_ota.c:117-121 | the abort of the session ends it without selecting anything |
| `Ota.WriteSafe` | examples/system_monitor/main/monitor_ota.c:72-99 | an accepted chunk continues exactly where the accepted bytes end |
| `Ota.ReadyIsFinal` | examples/system_monitor/main/monitor_ota.c:47-127 | once ready, nothing changes any more |
| `Ota.FailureReleasesExactlyWhenCommitted` | examples/system_monitor/main/monitor_ota.c:47-127 | a failed request releases the session, so that no id matches, exactly when it had passed the checks made before the hardware is touched; otherwise nothing changes |
| `Ota.AFailureThatDoesNotRelease` | examples/system_monitor/main/monitor_ota.c:75-76 | a chunk at the wrong offset fails and the session lives on |
| `Ota.SuccessReleases` | examples/system_monitor/main/monitor_ota.c:100-127 | abort, finish and expiry release; nothing else that succeeds does |
| `Ota.NamesIsAFunction` | examples/system_monitor/main/monitor_ota.c:54-60 | exactly the texts of 64 hexadecimal digits name a digest, one each |
| `Ota.IdsAreDistinct` | examples/system_monitor/main/monitor_ota.c:64-66 | distinct random draws print distinct session ids |
| `Ota.ReadDigest` | examples/system_monitor/main/monitor_ota.c:55-60 | the digit loop accepts exactly those texts and yields the digest they name |
| `Ota.UploadRecord.StartUpload` | examples/system_monitor/main/monitor_ota.c:47-71 | record and result are the specified ones |
| `Ota.UploadRecord.WriteChunk` | examples/system_monitor/main/monitor_ota.c:72-99 | record and result are the specified ones |
| `Ota.UploadRecord.FinishUpload` | examples/system_monitor/main/monitor_ota.c:100-116 | record and result are the specified ones |
| `Ota.UploadRecord.AbortUpload` | examples/system_monitor/main/monitor_ota.c:117-121 | record and result are the specified ones |
| `Ota.UploadRecord.TickAt` | examples/system_monitor/main/monitor_ota.c:122-127 | a session idle for more than 60 s, in 64-bit arithmetic, is released |
| `Ota.UploadRecord.Release` | examples/system_monitor/main/monitor_ota.c:26-33 | handle, hash, id and digest are gone |

## Left out

- Null pointer arguments, which the C functions refuse with an argument error: Dafny values are never null.
- Secret wiping and constant-time comparison, which have no functional meaning here; only the wiped upload id and header scratch are modelled, because later steps look at them.
- RpcReplies.AcceptanceRegisters: speaks of messages whose objects weigh at most 4076 words; heavier ones may exhaust the traversal budget of 4096, by design. So do the other members of `RpcReplies` and `RpcOutcomes`, whose messages hold readable objects in every slot.
- The HTTP/2 engine, TLS, sockets, JSON, NVS, the scheduler and SHA-256, which are other programs.
- Configuration, credentials and JSON decoding, which are field-by-field checks over a foreign tree.
- Unregistration in the middle of a control stream: `ControlStream` covers what incoming bytes cause; `Rpc` and `ControlQueue` cover every order of operations.
- The transport's DNS and TLS input and output, deadlines, logging and snapshots.
- Response bodies, deferral, resume, window credit and the GOAWAY this side sends.
- The text of status messages in the firmware upload.
- Confirmation of a boot after a restart.
- AdmissionTable.H2Session.Finish: the application makes no calls on a session that is being destroyed, as the tunnel's own `closed` callback does not.
- Ota.UploadRecord.WriteChunk: takes the verdict on the image header as a parameter, because its layout belongs to the platform.
- AdmissionTable.H2Session.OnHeaderField: holds headers as values, not as views into the 8192-byte scratch area, whose bounds appear as the sum of their sizes.
