# Verified model of the app's transport layer

A Dafny model of the Swift code under `ios/` that carries requests: the per-identity request queue and its handshake
workers, the CBOR codec and the envelopes around it, the authenticated request layer, three binary parsers, the Web4
caches, and two ownership protocols. Each module stands for one source file or one part of it; `*Proofs`, `*Order`,
`*Completion` and `*Runs` hold the theorems about the module they are named after. Check everything with
`dafny verify dfyconfig.toml`.

Code that updates state in place is a class, or a method with loops, proved equal to a specification function; the
theorems are about those functions. Code that runs on several threads is a state machine in which every critical
section, every thread step that others can observe, and every reset is one action, and the theorems hold for every
sequence of enabled actions (`Exec`, `Run`). The locked sections of the request queue, of the inbound stream store and of
the OPAQUE handle stores are one function each, which the class method is proved equal to and the state machine uses.

What a theorem says depends on the functions it is stated with. So each of these is also tied to literal bytes, positions,
status codes, keys and limits by lemmas of its own: those with a row below, and short ones beside the function, such as
`NameStep`, `MacDefinedExactly`, `HydratedExactly` or `TakeGets`.

| module | source | contents |
|---|---|---|
| Bytes | | octets, big-endian numbers, results that are a value, a thrown error or a trap |
| RequestQueue, RequestQueueProofs, RequestQueueOrder, RequestQueueCompletion, NativeQuicModule | ios/NativeQuicModule.swift | queue, workers, resets; class `NativeQuic` |
| Cbor, CborFormat, CborTrees, CborProofs, CborTraps, Utf8, ZhtpCodec | ios/ZhtpCodec.swift | RFC 8949 items in literal bytes, trees by path, texts by Unicode scalar value (RFC 3629), encoders, recursive decoder |
| ZhtpWireFraming, ZhtpResponse, ZhtpSdkRequest | ios/ZhtpWireFraming.swift, ios/ZhtpCodec.swift | frames, envelope detection, SDK request |
| ZhtpAuth, ZhtpAuthRequest, ZhtpAgreement, ZhtpSend | ios/ZhtpAuth.swift, ios/ZhtpAuthRequest.swift | counter, MAC bytes, second encoder, wire agreement, sending |
| DnsUdp | ios/NativeQuicModule.swift | A queries and answers (RFC 1035, sections 4.1.1 to 4.1.4) |
| ChallengeToken | ios/RCTPoUW.swift | varints and protobuf fields (Protocol Buffers encoding, "Base 128 Varints" and "Message Structure") |
| U128 | ios/ZhtpClient.swift | decimal string to two 64-bit halves |
| Web4BlobCache, Web4Runtime, Web4RuntimeRuns | ios/Web4BlobCache.swift, ios/Web4Runtime.swift, ios/Web4ManifestCache.swift | eviction, resolution, interleaved calls |
| QuicSession, NativeQuicSession, NativeQuicSessionProofs | ios/QuicSession.swift, ios/NativeQuicSession.swift | inbound streams, cancel and join |
| LobbyAuth, LobbyAuthProofs | ios/LobbyAuth.swift | OPAQUE state handles |

## Where the code does less than it means to

Each of these is a lemma, with the exact condition under which the intended property holds.

- Requests of one identity need not settle in the order they were enqueued, even without a reset: a worker whose
  handshake failed empties the queue under the lock but rejects outside it, and a new worker can overtake it
  (`OvertakingHappens`). A request settles in turn if and only if it overtakes no such worker (`SettlesInTurnExactly`).
- The decoder reads the simple values 20, 21 and 22 as null, false and true; section 3.3 of RFC 8949 and the encoder
  have false, true and null. A tree is read back as it was written if and only if it holds none of the three
  (`RoundTripExactly`); what it becomes otherwise is also determined (`RoundTrip`).
- `zhtp_frame_decode_header` shifts `UInt8` values, so the length it reads is the length modulo 256. It inverts its
  encoder for payloads of 1 to 255 bytes and no others (`FrameRoundTripExactly`); combined in 32 bits it would for
  every payload but the empty one (`IntendedRoundTripExactly`).
- The protobuf field loop converts a length to `Int`, which ends the process for 2^63 and above, and any text may hold such
  bytes (`TrapsExactly` in ChallengeToken). A token within two layers of base64 or hex is found if and only if no layers
  tried before it make the parser trap (`TokenFoundExactly`); one text whose token is never found is
  `aA06062566eC86f6f61a0141220142` (`TrapHidesToken`).
- The CBOR decoder ends the process in the same way, if and only if it comes to a head that announces too much
  (`TrapsExactly` in CborTraps).
- Counters of one session increase for fewer than 2^64 requests and are distinct for up to 2^64
  (`CountersIncreaseExactly`, `CountersDistinctExactly`).
- The comment on `parseU128Halves` says that non-digit input gives nil; Swift's `wholeNumberValue` also has values for
  characters that are not ASCII digits, and the code accepts whatever it gives 0 to 9 (`OtherDigitsAccepted`).
- `BlobCache.put` returns the name of the blob it wrote even where that blob alone exceeds the limit and was removed
  again (`NewestSurvivesExactly`, `ServedFileIsThereExactly`).
- Two calls that miss the manifest of one domain at the same time both store theirs, and the later reply wins
  (`OverlappingMissesReplace`). More than one manifest is ever stored for a domain if and only if two calls missed it at
  the same time and both got one (`OneManifestExactly`).
- `closeSession` can drop a session while a read is in flight when a wait times out (`TimeoutDropsUnderRead`) or when an
  `openInbound` overlaps it (`OverlapDropsUnderRead`), and in no other case (`QuietDrop`, `ReaderLeftAfterDrop`).

## Model

| member | source | states |
|---|---|---|
| RequestQueueProofs.Conservation | ios/NativeQuicModule.swift:293-452 | in every interleaving of enqueues, workers, failures and resets, an enqueued request is at exactly one place: queued, held by one worker, settled once, or dropped by a reset |
| RequestQueueProofs.NoDuplicates | ios/NativeQuicModule.swift:381-396 | no request is twice in a queue, or twice in what a worker holds |
| RequestQueueProofs.SettledForever | ios/NativeQuicModule.swift:417-434 | no step takes back a settlement or a drop; settlements are only appended |
| RequestQueueProofs.NoStrandedRequest | ios/NativeQuicModule.swift:312-447 | in every reachable state a non-empty queue means the identity is marked, and the mark means a worker that has not passed its exit critical section |
| RequestQueueProofs.LeavesInOrder | ios/NativeQuicModule.swift:389-395 | whatever has left the queue of an identity was enqueued before whatever is still in it |
| RequestQueueProofs.HandlesClosedOnce | ios/NativeQuicModule.swift:347-401 | a handle is closed at most once, only after it was opened; while open it has exactly one holder, and no holder has a closed handle |
| RequestQueueProofs.InvStep | ios/NativeQuicModule.swift:312-452 | every step keeps the bookkeeping of queues, holders, settlements and drops consistent |
| RequestQueueProofs.ServedStep | ios/NativeQuicModule.swift:312-447 | every step, resets included, keeps marked identities served by a live worker |
| RequestQueueProofs.HandlesStep | ios/NativeQuicModule.swift:347-401 | every step keeps each open handle with exactly one worker |
| RequestQueueProofs.Reachable | ios/NativeQuicModule.swift:293-452 | all three invariants hold in every reachable state |
| RequestQueueProofs.OutcomesExactly | ios/NativeQuicModule.swift:417-434 | in every run a request settles with an outcome if and only if its own reply carried it, or a failed worker rejected the queue that held it and the outcome is Rejected |
| RequestQueueProofs.ResolvedExactly | ios/NativeQuicModule.swift:417-434 | a request settles Resolved if and only if its own reply was Resolved |
| RequestQueueOrder.OneWorkerPerIdentity | ios/NativeQuicModule.swift:312-321 | without a reset an identity has at most one worker before its exit |
| RequestQueueOrder.SettlesInTurnExactly | ios/NativeQuicModule.swift:379-452 | without a reset, a settling request finds all earlier ones of its identity settled if and only if it overtakes no worker still rejecting an older one |
| RequestQueueOrder.SettlesInEnqueueOrder | ios/NativeQuicModule.swift:379-438 | without a reset and without a failed handshake the settlements of each identity are in enqueue order |
| RequestQueueOrder.OvertakingHappens | ios/NativeQuicModule.swift:440-452 | a run without a reset in which request 1 resolves before request 0 is rejected |
| RequestQueueOrder.ResetExactly | ios/NativeQuicModule.swift:1004-1007 | a reset empties both guarded fields and drops exactly what was queued; workers, settlements and handles stay |
| RequestQueueOrder.TwoWorkersAfterReset | ios/NativeQuicModule.swift:1141-1151 | a run in which a reset leaves two live workers of one identity |
| RequestQueueCompletion.WorkShrinks | ios/NativeQuicModule.swift:323-452 | every worker step lowers a natural-number measure |
| RequestQueueCompletion.WorkersFinish | ios/NativeQuicModule.swift:323-452 | between two calls from outside, workers take at most as many steps as the measure, however scheduled |
| RequestQueueCompletion.QuietMeansSettled | ios/NativeQuicModule.swift:323-452 | where no worker step is left, every issued request has settled or was dropped by a reset; without a reset, settled |
| RequestQueueCompletion.QuietMeansClosed | ios/NativeQuicModule.swift:347-401 | where no worker step is left, every handle that was opened has been closed exactly once |
| NativeQuicModule.NativeQuic.Enqueue | ios/NativeQuicModule.swift:312-321 | the enqueue critical section: appended last, marked, and a worker asked for exactly when unmarked |
| NativeQuicModule.NativeQuic.TakeNext | ios/NativeQuicModule.swift:381-396 | the drain critical section: the oldest request, or the exit that clears queue entry and mark |
| NativeQuicModule.NativeQuic.DrainQuinnQueue | ios/NativeQuicModule.swift:379-438 | uninterrupted, the whole queue settles in order, each request by its own reply, the mark is gone, and the handle is closed once |
| NativeQuicModule.NativeQuic.FailQuinnQueue | ios/NativeQuicModule.swift:440-452 | uninterrupted, everything queued is rejected in order and the mark is gone |
| NativeQuicModule.SettlementsAppended | ios/NativeQuicModule.swift:417-434 | the callbacks made: one for each request, in order, with its own reply |
| NativeQuicModule.NativeQuic.CancelAll | ios/NativeQuicModule.swift:1003-1010 | both guarded fields are cleared and nothing settles |
| NativeQuicModule.NativeQuic.SetActiveValidator | ios/NativeQuicModule.swift:1118-1151 | accepted exactly for a host, a port from 1 to 65535 and a DID; then the target moves and the queue, the marks and the session prefixes are cleared, else nothing changes |
| CborProofs.RoundTrip | ios/ZhtpCodec.swift:541-657 | decoding the bytes of any tree Swift can hold, whatever follows them, gives the tree with its simple values moved on by one, and stops at its end |
| CborProofs.RoundTripExactly | ios/ZhtpCodec.swift:541-657 | the tree comes back as it was if and only if it holds no null, true or false |
| CborProofs.SimpleValuesChange | ios/ZhtpCodec.swift:634-640 | what the three simple values become |
| CborProofs.RotatedInjective | ios/ZhtpCodec.swift:634-640 | no two trees become the same one |
| CborProofs.EncodingIsPrefixFree | ios/ZhtpCodec.swift:541-726 | an encoding that is a prefix of another is equal to it, and so are the trees |
| CborProofs.HeadIsShortest | ios/ZhtpCodec.swift:698-759 | no bytes the decoder reads as the same major type and argument are shorter (section 4.1 of RFC 8949) |
| CborProofs.HeadIsPrefixFree | ios/ZhtpCodec.swift:698-726 | no head is a proper prefix of another |
| CborProofs.HeadDecodes | ios/ZhtpCodec.swift:698-759 | the decoder reads back the major type and argument of every head |
| CborProofs.DecodesAt | ios/ZhtpCodec.swift:584-657 | the round trip at any offset of any buffer |
| CborProofs.NodesBounded | ios/ZhtpCodec.swift:584-657 | on any bytes, a decoded tree has at most as many nodes as bytes were consumed |
| CborFormat.HeadBytes | ios/ZhtpCodec.swift:698-726 | the initial byte and argument of every head, literally, for each of the five widths |
| CborFormat.ItemBytes | ios/ZhtpCodec.swift:541-726 | the major type of every kind of item, and the literal bytes of null, true, false and doubles |
| CborFormat.ArgumentRead | ios/ZhtpCodec.swift:730-759 | what is read for each additional information: 24 to 27 literally, 28 to 31 errors, truncation an error |
| CborFormat.NumberRead | ios/ZhtpCodec.swift:596-600 | the items 0x00 to 0x3f, with the trap of a negative number past Int64 |
| CborFormat.StringRead | ios/ZhtpCodec.swift:601-611 | byte strings and texts: when they trap, when they are errors, and where they end |
| CborFormat.OtherRead | ios/ZhtpCodec.swift:634-656 | tags and the end of the data are errors; 0xf4, 0xf5, 0xf6 and 0xfb literally; all other bytes from 0xe0 are null |
| CborFormat.PutLookup | ios/ZhtpCodec.swift:629-631 | writing a key changes what is found under it and nothing else |
| CborFormat.MapHolds | ios/ZhtpCodec.swift:622-633 | under every key a decoded map has the value of its last pair with that text as key; other keys leave nothing |
| CborTrees.FitsExactly | ios/ZhtpCodec.swift:541-657 | the trees of the round trip are all trees whose items, at every path, Swift can hold |
| CborTrees.NoSimpleExactly | ios/ZhtpCodec.swift:634-640 | the condition of the round trip, at every path: no item is null, true or false |
| CborTrees.RotatedAt | ios/ZhtpCodec.swift:634-640 | what comes back, at every path: the same shape and keys, and each leaf as sent but for null, false and true |
| Utf8.ValidExactly | ios/ZhtpCodec.swift:612-612 | the bytes taken for text are exactly those of sequences of Unicode scalar values |
| Utf8.TextInjective | ios/ZhtpCodec.swift:677-681 | different texts have different bytes |
| Utf8.TextRoundTrip | ios/ZhtpCodec.swift:601-613 | every sequence of scalar values is read back as its text, whatever follows |
| Utf8.OtherBodiesAreEmpty | ios/ZhtpCodec.swift:612-612 | a body that is no text is read as the empty string |
| Cbor.Decode | ios/ZhtpCodec.swift:584-657 | on any bytes the decoder ends, and a success has moved the offset forward and not past the end |
| Cbor.DecodeUInt | ios/ZhtpCodec.swift:730-759 | the argument fits 64 bits and the offset stays within the data |
| ZhtpCodec.AppendCborUInt | ios/ZhtpCodec.swift:698-726 | the shifted bytes written are the head of the specification |
| ZhtpCodec.AppendCborInteger | ios/ZhtpCodec.swift:661-667 | every Int64 is written as its item |
| ZhtpCodec.AppendCborFloat | ios/ZhtpCodec.swift:669-675 | the bytes of the double as they lie in memory, reversed one by one, make its CBOR item |
| ZhtpCodec.ReversedInMemory | ios/ZhtpCodec.swift:672-674 | a number in memory read backwards has its most significant byte first |
| ZhtpCodec.AppendCborString | ios/ZhtpCodec.swift:677-681 | a text is written as its item |
| ZhtpCodec.AppendCborBytes | ios/ZhtpCodec.swift:144-147 | a byte string is written as its item |
| ZhtpCodec.AppendCborByteArray | ios/ZhtpCodec.swift:149-154 | bytes are written as an array of integers |
| ZhtpCodec.AppendCborArray | ios/ZhtpCodec.swift:683-688 | the head and the items in order, or an error at the first item that cannot be written |
| ZhtpCodec.AppendCborMap | ios/ZhtpCodec.swift:690-696 | the head and the pairs in order, or an error at the first value that cannot be written |
| ZhtpCodec.EncodeCborValue | ios/ZhtpCodec.swift:541-576 | an error exactly where the tree holds bytes; otherwise the encoding of the tree, with numbers past Int64 as doubles |
| ZhtpCodec.WrittenExactly | ios/ZhtpCodec.swift:548-564 | what is written is the tree itself if and only if it holds no number past Int64 |
| CborTrees.HasDataExactly | ios/ZhtpCodec.swift:571-573 | the encoder fails exactly where, at some path, there are bytes |
| CborTrees.NoneLargeExactly | ios/ZhtpCodec.swift:555-563 | a tree is written unchanged exactly where, at every path, no integer is 2^63 or more |
| CborTrees.WrittenAt | ios/ZhtpCodec.swift:555-563 | what is written, at every path: the leaf given, or the nearest double of an integer of 2^63 or more |
| ZhtpCodec.DecodeCborUInt | ios/ZhtpCodec.swift:730-759 | the loop over argument bytes computes the specified argument or throws |
| ZhtpCodec.DecodeCborAt | ios/ZhtpCodec.swift:584-657 | the recursive decoder returns, throws and traps exactly as the specification |
| ZhtpCodec.DecodeArray | ios/ZhtpCodec.swift:614-621 | the loop over items, with whatever one of them throws or traps |
| ZhtpCodec.DecodeMap | ios/ZhtpCodec.swift:622-633 | the loop over pairs: keys that are not texts are dropped, and the last value of a key stays |
| CborTraps.TrapsExactly | ios/ZhtpCodec.swift:596-633 | on any bytes the decoder traps if and only if it comes to a head with an argument of 2^63 or more, or to a string that would end past the largest Int |
| ZhtpWireFraming.FrameEncode | ios/ZhtpWireFraming.swift:8-28 | the frame of a payload of at most 16 MiB, an error above that |
| ZhtpWireFraming.WireEncode | ios/ZhtpWireFraming.swift:32-52 | the header form of a payload of at most 16 MiB, an error above that |
| ZhtpWireFraming.FormsByPosition | ios/ZhtpWireFraming.swift:17-51 | both forms byte by byte: "ZHTP", version 1, the length most significant byte first, the payload |
| ZhtpWireFraming.DecodesExactly | ios/ZhtpWireFraming.swift:56-109 | on any bytes a message is found exactly where the fourth byte is not zero and that many bytes follow; the first three count for nothing |
| ZhtpWireFraming.FrameDecodes | ios/ZhtpWireFraming.swift:56-109 | what the code makes of the frame of every payload: it takes the length modulo 256 |
| ZhtpWireFraming.FrameRoundTripExactly | ios/ZhtpWireFraming.swift:8-109 | decoding inverts framing if and only if the payload has 1 to 255 bytes |
| ZhtpWireFraming.IntendedRoundTripExactly | ios/ZhtpWireFraming.swift:56-109 | with a 32-bit length it would if and only if the payload is not empty |
| ZhtpWireFraming.StreamSplits | ios/ZhtpWireFraming.swift:94-109 | taking messages off a concatenation of frames gives back the payloads and the leftover |
| ZhtpResponse.DecodeResponse | ios/ZhtpCodec.swift:306-349 | the three-way detection hands the unwrapped payload to the decoder, or throws for a truncated header form |
| ZhtpResponse.DecodeResponseCbor | ios/ZhtpCodec.swift:289-304 | the two-way detection for payloads without the header |
| ZhtpResponse.UnwrapInverts | ios/ZhtpCodec.swift:289-349 | for every payload of 1 byte to 16 MiB that begins with a map byte, unwrapping inverts all three forms |
| ZhtpResponse.FormsAreDistinct | ios/ZhtpCodec.swift:306-349 | no form of one payload is a form of another, or another form of the same |
| ZhtpResponse.BareExactly | ios/ZhtpCodec.swift:306-349 | bytes pass through unchanged if and only if they carry neither header nor length prefix |
| ZhtpResponse.UnwrapExactly | ios/ZhtpCodec.swift:289-349 | on any bytes: which form is found, where its payload lies, and that the only error is a header form that reaches past the end |
| ZhtpResponse.UnwrapsHeader | ios/ZhtpCodec.swift:311-336 | the header form is unwrapped for every payload whose length fits 32 bits |
| ZhtpResponse.ResponseRoundTrip | ios/ZhtpCodec.swift:289-349 | an encoded map in any form is unwrapped and decoded |
| ZhtpResponse.RequestIdRoundTrip | ios/ZhtpCodec.swift:522-536 | a request id sent as an array of integers is read back byte for byte |
| ZhtpResponse.LowBytesInOrder | ios/ZhtpCodec.swift:525-529 | the items give their bytes in order |
| ZhtpSdkRequest.EncodeSdkRequest | ios/ZhtpCodec.swift:75-142 | whichever optional fields are present, the announced count is the number written and the result is the header form of one tree; a length over 32 bits traps |
| ZhtpSdkRequest.SdkRoundTrip | ios/ZhtpCodec.swift:75-142 | unwrapped and decoded, the request is the tree of exactly the fields given |
| ZhtpSdkRequest.SdkFieldsFound | ios/ZhtpCodec.swift:95-124 | under each of the seven keys: the value given; nothing for what was not given, and no empty body |
| ZhtpAuth.BuildMacInput | ios/ZhtpAuth.swift:115-165 | the canonical bytes, or nil exactly for an unmapped method, a session id that is not 32 bytes, or a path or body too long |
| ZhtpAuth.MacLayout | ios/ZhtpAuth.swift:142-175 | the canonical bytes position by position: the method as 0 to 3, both lengths, path, body, counter, session id |
| ZhtpAuth.MacInputIsInjective | ios/ZhtpAuth.swift:115-165 | equal canonical bytes mean equal method, path, body, counter and session id |
| ZhtpAuth.AuthSession.constructor | ios/NativeQuicModule.swift:357-365 | a session starts at counter 1 |
| ZhtpAuth.AuthSession.NextSequence | ios/ZhtpAuth.swift:80-84 | returns the counter and moves it on, wrapping at 2^64 |
| ZhtpAuth.AuthSession.Touch | ios/ZhtpAuth.swift:74-76 | only the activity time changes |
| ZhtpAuth.AuthSession.BuildAuthContext | ios/ZhtpAuth.swift:260-288 | the counter is consumed on success and on failure; a context carries it and the MAC over the canonical bytes |
| ZhtpAuth.CounterIs | ios/ZhtpAuth.swift:80-84 | the counter of every call, in closed form |
| ZhtpAuth.CountersIncreaseExactly | ios/ZhtpAuth.swift:78-84 | the counters of n calls, failing ones included, increase if and only if n < 2^64 |
| ZhtpAuth.CountersDistinctExactly | ios/ZhtpAuth.swift:78-84 | they are distinct if and only if n <= 2^64 |
| ZhtpAuth.NoMacInputRepeats | ios/ZhtpAuth.swift:260-288 | no two of the first 2^64 calls of a session have the same MAC input |
| ZhtpAuthRequest.AppendCborMapHeader | ios/ZhtpAuthRequest.swift:171-176 | the head of a map of fewer than 24 pairs, an error otherwise |
| ZhtpAuthRequest.AppendCborUInt | ios/ZhtpAuthRequest.swift:178-198 | the second integer encoder writes the same head as the first |
| ZhtpAuthRequest.AppendCborLength | ios/ZhtpAuthRequest.swift:226-249 | the second length encoder writes the same head as the first, for every major type |
| ZhtpAuthRequest.AppendCborString | ios/ZhtpAuthRequest.swift:200-204 | a text is written as its item |
| ZhtpAuthRequest.AppendCborBytes | ios/ZhtpAuthRequest.swift:213-216 | a byte string is written as its item |
| ZhtpAuthRequest.AppendCborByteArray | ios/ZhtpAuthRequest.swift:206-211 | bytes are written as an array of integers |
| ZhtpAuthRequest.AppendAuthContext | ios/ZhtpAuthRequest.swift:136-144 | four pairs announced, four written |
| ZhtpAuthRequest.AppendHeaders | ios/ZhtpAuthRequest.swift:155-163 | four pairs announced, four written; both fees are 0 |
| ZhtpAuthRequest.AppendRequest | ios/ZhtpAuthRequest.swift:147-167 | six pairs announced, six written |
| ZhtpAuthRequest.EncodeAuthenticatedRequest | ios/ZhtpAuthRequest.swift:106-169 | the bytes are the encoding of one tree, so all four announced counts match the pairs written |
| ZhtpAgreement.WireAgreement | ios/ZhtpAuthRequest.swift:106-169 | decoding the bytes recovers method, path, body, counter and session id exactly as the MAC covers them, and the MAC |
| ZhtpAgreement.EnvelopeAgreement | ios/ZhtpAuthRequest.swift:119-167 | everything else sent is found under its key: versions, request id, both times, DID, content type and length, and zero fees |
| ZhtpAgreement.TreeFits | ios/ZhtpAuthRequest.swift:106-169 | the tree sent has distinct keys, no simple values, and fits the types |
| ZhtpAgreement.TreeReads | ios/ZhtpAuthRequest.swift:119-167 | the fields of the tree are the arguments of the MAC |
| ZhtpAgreement.VerbRoundTrip | ios/ZhtpAuth.swift:167-175 | the name of a method with a MAC byte determines it |
| ZhtpAgreement.SentRequestsVerify | ios/ZhtpAuth.swift:260-288 | every request a session authenticates is accepted by a receiver that decodes it and computes the MAC again |
| ZhtpSend.Send | ios/ZhtpAuthRequest.swift:6-101 | order of steps: an expired session sends nothing and keeps its counter, activity counts only after a context was built, the bytes sent are as specified, and the answer is the response with the same request id, an error, or the trap of the decoder |
| ZhtpSend.AttemptedExactly | ios/ZhtpAuthRequest.swift:15-36 | one send case by case: what an expired session does, what consumes the counter, when activity is set, and what the context carries |
| ZhtpSend.AnsweredExactly | ios/ZhtpAuthRequest.swift:82-97 | an answer is a response only if it decodes and carries the id that was sent; the decoder's trap is passed on |
| ZhtpSend.SendsWithinLimits | ios/ZhtpAuth.swift:57-71 | over any sends nothing goes out more than 3600 seconds after the session was made or 300 after it was last active |
| ZhtpSend.SendsIncrease | ios/ZhtpAuthRequest.swift:15-36 | over any sends, successful or not, the counters on the wire increase |
| ZhtpSend.SendsNeverRepeat | ios/ZhtpAuthRequest.swift:15-52 | fewer than 2^64 sends of a fresh session never put a MAC input on the wire twice |
| DnsUdp.SkipNameFrom | ios/NativeQuicModule.swift:1355-1360 | the loop over labels ends after the root, after a pointer, or past the end |
| DnsUdp.ReadRecord | ios/NativeQuicModule.swift:1366-1386 | one turn of the answer loop: a complete record and its address, or the end |
| DnsUdp.ParseAnswers | ios/NativeQuicModule.swift:1346-1389 | on any bytes the loops index nothing out of range and return what the specification says |
| DnsUdp.AnswerStep | ios/NativeQuicModule.swift:1364-1387 | one turn of the answer loop on any bytes, position by position |
| DnsUdp.Parsed | ios/NativeQuicModule.swift:1364-1388 | at most as many addresses as the header announces |
| DnsUdp.AnswersExtracted | ios/NativeQuicModule.swift:1346-1389 | for every well-formed one-question message, with names of labels, pointers, or labels and a pointer, exactly the four-byte A records in order |
| DnsUdp.TruncationIsPrefix | ios/NativeQuicModule.swift:1346-1389 | cutting any message short cuts the list of addresses short |
| DnsUdp.TruncatedMessage | ios/NativeQuicModule.swift:1346-1389 | any truncation of a well-formed message yields a prefix of its addresses |
| DnsUdp.BuildQuery | ios/NativeQuicModule.swift:1326-1344 | a query exactly when no label exceeds 63 bytes, and then header, labels and A question |
| DnsUdp.LabelsExactly | ios/NativeQuicModule.swift:1334-1339 | the labels, joined with dots, are the name without its empty pieces |
| DnsUdp.ReplyToQuery | ios/NativeQuicModule.swift:1326-1389 | a reply that repeats the question of a query and answers it is parsed completely |
| ChallengeToken.ReadVarint | ios/RCTPoUW.swift:624-640 | the loop reads at most 10 bytes and its value fits 64 bits |
| ChallengeToken.VarintFits | ios/RCTPoUW.swift:624-640 | no bit shifted in is out of range except those the tenth byte loses |
| ChallengeToken.VarintRoundTrip | ios/RCTPoUW.swift:624-640 | reading inverts the canonical varint of every 64-bit number, which has at most 10 bytes |
| ChallengeToken.VarintExactly | ios/RCTPoUW.swift:624-640 | on any bytes: a varint of at most ten bytes, canonical or not, is its groups of seven bits modulo 2^64; without an end within ten bytes there is none |
| ChallengeToken.ReadBody | ios/RCTPoUW.swift:588-611 | the switch over wire types 0, 1, 2 and 5, and nil for others |
| ChallengeToken.ParseChallengeTokenProtobuf | ios/RCTPoUW.swift:577-622 | the field loop computes the specified token, nil or trap |
| ChallengeToken.TokenParses | ios/RCTPoUW.swift:577-622 | from any sequence of fields the parser takes the last length-delimited field 3 and the last length-delimited field 4 |
| ChallengeToken.HexInjective | ios/RCTPoUW.swift:718-720 | different ids have different hex |
| ChallengeToken.HexReadBack | ios/RCTPoUW.swift:718-720 | two lower-case digits a byte, which read back as the bytes |
| ChallengeToken.MessageParses | ios/RCTPoUW.swift:577-622 | for any sequence of fields: a token exactly where the last fields 3 and 4 are there and not empty, with strings that read back as them; otherwise nil |
| ChallengeToken.NestedExactly | ios/RCTPoUW.swift:533-557 | nil if and only if nothing within two layers of base64 or hex has a result; otherwise the token or trap of the layers tried first among those with a result |
| ChallengeToken.TokenFoundExactly | ios/RCTPoUW.swift:533-557 | a token is found if and only if at most two layers hide one and no layers tried before them trap |
| ChallengeToken.TrapsExactly | ios/RCTPoUW.swift:594-599 | the field loop traps if and only if it comes to a length-delimited field whose length does not fit Int or takes the index past it |
| ChallengeToken.NilExactly | ios/RCTPoUW.swift:582-619 | on any bytes: nil if and only if the loop comes to a broken field, or ends without both ids |
| ChallengeToken.TrapHidesToken | ios/RCTPoUW.swift:541-553 | a text that holds a token as hex and traps as base64, which is tried first |
| U128.ParseU128Halves | ios/ZhtpClient.swift:21-41 | a result if and only if the string is non-empty, all digits, and its value is below 2^128; then hi * 2^64 + lo is that value |
| U128.DecimalGrows | ios/ZhtpClient.swift:32-36 | more digits never make the value smaller, which justifies every early overflow return |
| U128.OtherDigitsAccepted | ios/ZhtpClient.swift:19-26 | any character whose property gives 0 to 9 is taken for that digit |
| U128.WrittenNumbersParse | ios/ZhtpClient.swift:21-41 | a number written in decimal digits is parsed, and as that number, if and only if it is below 2^128 |
| U128.OthersAreRefused | ios/ZhtpClient.swift:26-26 | a string with anything in it that has no value from 0 to 9 is refused |
| Web4BlobCache.BlobCache.EnforceLimit | ios/Web4BlobCache.swift:34-54 | removes a minimal prefix of the oldest-first order |
| Web4BlobCache.BlobCache.RemoveOldest | ios/Web4BlobCache.swift:47-53 | the removal loop stops at the first file count that meets the bound |
| Web4BlobCache.BlobCache.Get | ios/Web4BlobCache.swift:13-18 | a hit returns the file and counts as a use; a miss changes nothing |
| Web4BlobCache.BlobCache.Put | ios/Web4BlobCache.swift:20-32 | written, then brought to the bound; a failed write changes nothing |
| Web4BlobCache.SortOldestFirst | ios/Web4BlobCache.swift:42-46 | the order is by modification time and lists every file once |
| Web4BlobCache.MinimalPrefixUnique | ios/Web4BlobCache.swift:47-53 | how many files go is determined by the order |
| Web4BlobCache.WithinBound | ios/Web4BlobCache.swift:34-54 | afterwards the total is within the bound, or nothing is left |
| Web4BlobCache.OldestGo | ios/Web4BlobCache.swift:42-53 | nothing that stays was used before anything that goes |
| Web4BlobCache.NewestSurvivesExactly | ios/Web4BlobCache.swift:20-54 | a strictly newest file survives if and only if its own size is within the bound |
| Web4Runtime.ChosenExactly | ios/Web4Runtime.swift:48-64 | a path goes unanswered if and only if the manifest lists none of its candidate paths; else the answer is the earliest entry of the most preferred one listed |
| Web4Runtime.ChosenByPath | ios/Web4Runtime.swift:48-69 | the answer by the path itself: exact match, then without its slash, then "/index.html", then "index.html", each the earliest; none where none of these is listed |
| Web4Runtime.ChooseEntry | ios/Web4Runtime.swift:48-64 | the chain of fallbacks computes that choice |
| Web4Runtime.Runtime.ResolveManifest | ios/Web4Runtime.swift:14-43 | a cached manifest is returned as it is; otherwise the fetched one, with the flags of the resolver, is stored and returned |
| Web4Runtime.Runtime.ResolveFile | ios/Web4Runtime.swift:45-86 | the whole call run alone: its answer and what it leaves in both caches, on every path |
| Web4RuntimeRuns.FilesHoldTheirBlobs | ios/Web4Runtime.swift:71-81 | whatever calls and removals interleave, a cached file never holds another content than that of its id |
| Web4RuntimeRuns.FetchedFileStaysExactly | ios/Web4Runtime.swift:76-81 | a file just written for a call is still there if and only if the blob fits the limit |
| Web4RuntimeRuns.ServedFileIsThereExactly | ios/Web4Runtime.swift:71-81 | at the moment a call is served its file is there if and only if it was cached already or the blob fits the limit |
| Web4RuntimeRuns.CallsHold | ios/Web4Runtime.swift:14-86 | every call chose its entry, for its path, from a manifest stored for its domain |
| Web4RuntimeRuns.OneManifestExactly | ios/Web4Runtime.swift:15-38 | more than one manifest is stored for a domain by some moment if and only if before it two calls missed that domain at once and both got a manifest |
| Web4RuntimeRuns.ServesUncachedAnswer | ios/Web4Runtime.swift:14-86 | where no misses of its domain have overlapped so far, a served call gives the answer of an uncached fetch over the manifest first cached, and its file holds it at every later moment at which it exists |
| Web4RuntimeRuns.NotFoundOnlyWhereUncachedIs | ios/Web4Runtime.swift:66-69 | under the same condition a call ends in "not found" only where the uncached fetch does |
| Web4RuntimeRuns.FailsExactly | ios/Web4Runtime.swift:19-42 | a call fails otherwise if and only if one of its own requests failed or its blob could not be written |
| Web4RuntimeRuns.OverlappingMissesReplace | ios/Web4ManifestCache.swift:7-15 | a run in which the second of two overlapping misses replaces the first manifest |
| QuicSession.QuicInboundStream.Read | ios/QuicSession.swift:208-226 | a closed stream reads as closed without a call of the FFI; else one call is made on its handle and the status decides |
| QuicSession.QuicInboundStream.Close | ios/QuicSession.swift:229-234 | the handle is passed to the FFI once, however often it is called |
| QuicSession.QuicInboundStream.ReadLoop | ios/NativeQuicSession.swift:357-393 | in literal statuses: the loop goes on while reads time out or bring frames and nothing is cancelled, forwards every frame in order, and ends at the first other turn, reporting it; one read a turn, one close on every way out |
| QuicSession.FramesInOrder | ios/NativeQuicSession.swift:368-376 | a turn with status 0 gives its payload and any other nothing, in the order of the turns |
| NativeQuicSession.QuicInboundStore.Add | ios/NativeQuicSession.swift:84-88 | the runner is stored under its fresh id |
| NativeQuicSession.QuicInboundStore.Remove | ios/NativeQuicSession.swift:94-99 | the runner is returned and forgotten |
| NativeQuicSession.QuicInboundStore.AllForSession | ios/NativeQuicSession.swift:104-108 | every stored runner of the session, once |
| NativeQuicSessionProofs.Reachable | ios/NativeQuicSession.swift:252-418 | the invariants of readers, handles, close calls and closers hold in every reachable state |
| NativeQuicSessionProofs.OnlyReadersClose | ios/NativeQuicSession.swift:357-361 | only a reader past its loop reaches the close function of the FFI, for its own handle |
| NativeQuicSessionProofs.HandlesClosedOnce | ios/QuicSession.swift:208-234 | each handle is closed exactly once when its reader is past its close, never before; a read in flight has an open handle |
| NativeQuicSessionProofs.DropWaitsForReaders | ios/NativeQuicSession.swift:252-266 | at a drop every reader of the snapshot was cancelled and has signalled its exit or had its wait time out |
| NativeQuicSessionProofs.ReaderLeftAfterDrop | ios/NativeQuicSession.swift:252-266 | a reader still there after the drop timed out or came from an overlapping openInbound |
| NativeQuicSessionProofs.QuietDrop | ios/NativeQuicSession.swift:252-266 | with neither, no read is in flight at the drop or ever after, and every stream of the session is closed |
| NativeQuicSessionProofs.DropIsFinal | ios/NativeQuicSession.swift:264-264 | what a closer recorded by its drop never changes |
| NativeQuicSessionProofs.CancelledReaderLeaves | ios/NativeQuicSession.swift:363-371 | a cancelled reader begins no further read and gets nearer to its exit with each of its own steps |
| NativeQuicSessionProofs.ReaderCanStep | ios/NativeQuicSession.swift:352-393 | a reader that is not gone always has a step to take |
| NativeQuicSessionProofs.ReaderGoesOn | ios/NativeQuicSession.swift:363-391 | which outcomes lead back to the head of the loop, and what a reader does there |
| NativeQuicSessionProofs.QuietDropHappens | ios/NativeQuicSession.swift:252-266 | a run in which a close waits for a reader and drops the session with nothing timed out |
| NativeQuicSessionProofs.TimeoutDropsUnderRead | ios/NativeQuicSession.swift:263-264 | a run in which a timeout drops the session under a read |
| NativeQuicSessionProofs.OverlapDropsUnderRead | ios/NativeQuicSession.swift:331-407 | a run in which an overlapping openInbound does |
| LobbyAuth.OpaqueStateStore.Add | ios/LobbyAuth.swift:148-152 | the handle is stored under its fresh id |
| LobbyAuth.OpaqueStateStore.Take | ios/LobbyAuth.swift:156-158 | removes and returns the handle, or nil |
| LobbyAuth.OpaqueStateStore.Finish | ios/LobbyAuth.swift:245-279 | the handle is taken, and consumed whatever the FFI answers; an unknown id reaches no FFI call, and an empty response without a base address traps before it |
| LobbyAuth.FinishErrors | ios/LobbyAuth.swift:268-278 | the error for each status: they differ by kind only from -3 on |
| LobbyAuth.OpaqueStateStore.Cancel | ios/LobbyAuth.swift:283-287 | the handle is freed if present; otherwise nothing happens |
| LobbyAuthProofs.HandlesConserved | ios/LobbyAuth.swift:140-351 | in every interleaving an allocated handle is stored once, held by one call, or passed to the FFI once |
| LobbyAuthProofs.PassedAtMostOnce | ios/LobbyAuth.swift:245-351 | no handle reaches finish or free twice, and each arrives at the functions of its own kind through the call that took it |
| LobbyAuthProofs.RaceHasOneWinner | ios/LobbyAuth.swift:154-158 | of all calls racing on one id at most one gets a handle |
| LobbyAuthProofs.StoredOrTaken | ios/LobbyAuth.swift:148-158 | in every run a handle stored under an id is still there if and only if no call has taken it |
| LobbyAuthProofs.ReturnedExactly | ios/LobbyAuth.swift:245-351 | a call that returned had a handle if and only if it passed it on |
| LobbyAuthProofs.Reachable | ios/LobbyAuth.swift:140-351 | the invariants behind these hold in every reachable state |

## Left out

- The FFI (QUIC, handshakes, Dilithium, Kyber, HKDF, HMAC, OPAQUE): outcomes are parameters or any enabled action; HMAC is a function that may fail and yields 32 bytes.
- The network, the clock, randomness, UUIDs and threads' scheduling: parameters, fresh names, or any interleaving. Handshakes and sends are steps that may end either way, so nothing is said about how long they take.
- ChallengeToken.NestedExactly: JSON, base64, hex and trimming are parameters; their behaviour belongs to Foundation. The texts that `parseChallengeToken` tries one after the other (the token itself, its base64, its hex, two segments) are left out.
- ZhtpCodec.EncodeCborValue: which kind of value a bridged `NSNumber` is belongs to Foundation. A number up to 2^63 - 1 is taken for an Int64; one that was a `UInt64` is written as a double whatever its size, and is given to the model as that double. A dictionary's order of emission is taken as given, and its keys are compared by their UTF-8 bytes rather than by canonical equivalence.
- ZhtpCodec.DecodeCborAt: stack depth is unbounded; a double is its 64 bits, which leaves out that a zero pattern is read without byte reversal to the same value.
- ZhtpResponse.DecodeResponseCbor: reading the decoded dictionary into a response, as below.
- ZhtpResponse.DecodeResponse: reading the decoded dictionary into a response, beyond the request id; misaligned loads and `Data` slices that do not begin at index 0 are not modelled.
- `zhtp_encode_request`, `encodeRequestWire` and `encodeRequest` in ios/ZhtpCodec.swift: the same maps and encoders as the two requests that are modelled, with optional fields.
- ZhtpSdkRequest.EncodeSdkRequest: the method is given in upper case, since case conversion belongs to Foundation.
- `validateSequenceNotRepeated` in ios/ZhtpAuth.swift: one comparison, called by none of the code modelled. HKDF key derivation is not part of this model.
- ZhtpSend.Send: how the decoded tree is read for a response, which is a parameter; the requester and fee arguments, which the code never writes to the wire, and log output.
- DnsUdp.ParseAnswers: an address is four bytes; its text form with dots is left out. Splitting a name at dots is by byte, as for names of ASCII labels.
- NativeQuicModule.NativeQuic.SetActiveValidator: the promise callbacks. That a request enqueued afterwards uses the new host is not true of a surviving old worker and is not stated.
- RequestQueue: the response dictionary passed to a resolved promise, and the reading of the target host inside the worker.
- Web4BlobCache.BlobCache.EnforceLimit: removals and attribute reads succeed; file sizes are the lengths of the contents.
- Web4RuntimeRuns.ServesUncachedAnswer: SHA-1 file names are collision-free and a content id names one blob. Looking for a file and touching it is one step, as are writing a blob and bringing the directory to its bound.
- Web4RuntimeRuns.FetchedFileStaysExactly: needs a clock later than every stored modification time; within the resolution of the file system's clock, ties may evict either file.
- NativeQuicSession: the thread of a reader always runs its block; what a thread cancelled before its start does belongs to Foundation. `rpc`, which also holds a session reference, and events that are not emitted because no listener is attached are left out.
- QuicSession.QuicInboundStream.Read: copying and freeing the frame buffer.
- LobbyAuth.OpaqueStateStore.Finish: whether an empty buffer has a base address is a parameter; draining the output buffers is left out. The channel-binding MAC is not part of this model.
- Key storage, UI, provisioning, proof-of-work receipts and the TypeScript sources.
