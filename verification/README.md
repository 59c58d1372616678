# A verified model of the mysmpp gateway

mysmpp is an SMS gateway. Clients submit messages over SMPP or HTTP; the gateway filters and routes them, queues them in
an outbox, sends them to upstream SMPP providers, and carries the delivery receipts back. This project models the parts of
it whose correctness cannot be read off one function, in Dafny 4.11, and proves what they promise:

* the outbox, from claiming a row to the provider call, with stale claims, failing disk writes and crashes
  (`StoreSpec`, `StoreLaws`, `MemoryStores`, `FileSpec`, `FileStores`, `OutboxProtocol`), and what the dispatcher records
  after it (`Dispatch`);
* submissions with daily quota and client keys, and gateway numbers across restarts (`Submissions`, `GatewayIds`,
  `IdAllocation`);
* concurrent delivery receipts of a segmented message (`Aggregation`, `Receipts`), also when rows expire and handlers stop
  early (`ReceiptExpiry`);
* text on the wire: GSM 7-bit packing, UCS-2, segmentation (`Gsm7`, `Ucs2Text`, `Segmentation`);
* submit_sm from the client's request to the provider's (`SmppFields`, `Smpp`, `SmppClient`, `Relay`), and long texts from
  splitting to joining (`LongTexts`);
* the send window of an upstream connection (`Window`);
* the content filter: the keyword automaton as it is built (`Keywords`, `KeywordFilter`), normalisation and masking
  (`Masking`), and the decision on a text (`Filtering`);
* rate limiting (`TokenBucket`) and routing (`Router`).

`dafny verify dfyconfig.toml` checks everything.

Objects that the gateway updates in place are classes (`MemoryStore`, `FileStore`, `IdAllocator`, `SendWindow`,
`Limiter`), loops are loops, and each is proved against a function or relation on values about which the properties are then
stated. Concurrency is a state machine in which every store call, lock or channel operation is one step; its theorems are
about every run. Time is a number, 0 standing for the unset time; clocks, random references and hashes are parameters. Text
is a sequence of Unicode scalar values, octets are the integers below 256 (bit vectors in `Gsm7`).

## What holds only under a condition

* A worker that claims a row again while it still has an uncalled job on it can call the provider twice for one row, because
  marking a row `sending` succeeds a second time for the same worker (memory.go 505-521). At most one call is proved without
  such a claim. From a state in which no row has two calls made or pending, a claim can be followed by two calls for one row,
  with no further claim and no restart, if and only if it is such a claim; and a run that does it is given.
* Persisting renames the old file to `.bak` before renaming the new one into place (file.go 183-189). A crash between the two
  leaves no file, and the store starts empty. Durability is proved for runs without a crash in that window. A restart keeps a
  called row if and only if the file is there, and a number handed out before a restart can be handed out after it,
  with no further restart, if and only if the restart fell into the window. Runs that lose a called row and repeat a number
  are given.
* The failure links of the keyword automaton (ahocorasick.go 49-61) are the longest proper suffixes if and only if no proper
  suffix of two or more runes of a keyword prefix is itself a keyword prefix, in whatever order the build walks its maps.
  Building and searching end for every keyword list. Searching is exact under that condition. Without it, a shortest keyword
  prefix that has an inner one which is a keyword is a text in which the search misses that keyword: `abc` with `bc` is an
  example. Where the inner prefix is no keyword the search may be exact all the same: one keyword of n equal runes is searched
  exactly if and only if n is 1 or two less than a power of two, `aaaaaa` among them.
* GSM 7-bit packing loses a final `@` if and only if the text fills its last group of eight septets, as eight `@` do.
* A provider that gives two parts of a message the same id, or names neither, has them share one receipt row (dispatcher.go
  846-877). Once every row has a final state the message is complete if and only if all parts have different ids; otherwise
  it waits for ever for a part that has no row. Two unnamed parts are an example.
* A message whose receipt row for some segment has expired is never settled by a later receipt.
* A relayed or segmented request is accepted by the far side if and only if service type, addresses and validity period keep
  their SMPP lengths (the configuration does not check the first and the last), and all parts of a long text if and only if
  there are at most 255. A UCS-2 text then comes back; a packed GSM 7-bit text does if and only if no part ends in `@` and
  fills its last group of eight septets; a Latin-1 text sent with packing does if and only if all its runes have an octet.
* A text that replaces one with a header too long for a short message is split anew with a header on every part (encode.go
  150-170). Its parts arrive as sent if and only if there are at least two: a single part is announced with a header that it
  does not have. An empty text under a header of 255 octets is refused for that reason.
* Without packing every text but UCS-2 is sent as GSM 7-bit septets, whatever its data coding says (encode.go 237-245). A text
  labelled Latin-1 then comes back if and only if each of its runes has the same code in both alphabets; `@` has not.
* Under an unknown encoding name a segment fits 140 octets if and only if its runes, those of the extension table counted
  twice, are within the limit: 81 braces are not.
* A client key is a repeat exactly until the instant it expires.

## Model

| member | source | states |
|---|---|---|
| `OutboxProtocol.FailClosed` | internal/store/memory.go:471-651 | in every interleaving, between crashes, a row that reached sending, done, failed or uncertain never becomes pending or claimed again and keeps its owner |
| `OutboxProtocol.CalledRowNeverClaimable` | internal/dispatch/dispatcher.go:802-911 | once the provider has been called for a row, no later state, disk image or reload of it makes the row claimable |
| `OutboxProtocol.OneCallerPerRow` | internal/dispatch/dispatcher.go:802-860 | all provider calls for one row are by one worker identity, crashes included |
| `OutboxProtocol.AtMostOneCall` | internal/dispatch/dispatcher.go:762-911 | without a claim that hands a worker a row it still has an uncalled job on, no row is called twice in any run |
| `OutboxProtocol.SelfReclaimAllowsTwoCalls` | internal/store/memory.go:505-521 | a claim that breaks that guard for an item can be followed, with no further claim and no restart, by two calls for that row by that worker |
| `OutboxProtocol.TwoCallsIffSelfReclaim` | internal/store/memory.go:471-521 | so from a state with no row called or pending twice, two calls for one row can follow a claim if and only if it breaks the guard |
| `OutboxProtocol.TwoCallsHappen` | internal/store/memory.go:585-609 | a run from the empty store in which claim, requeue and claim by the same worker lead to two equal calls |
| `OutboxProtocol.CrashKeepsCalledRowIff` | internal/store/file.go:183-189 | a restart keeps a called row closed and owned exactly when the crash did not fall between the two renames |
| `OutboxProtocol.CalledRowLost` | internal/store/file.go:183-189 | a run from the empty file store in which a row is marked on disk and called and then lost by such a crash |
| `OutboxProtocol.InvOfRun` | internal/store/file.go:287-292 | in every run each job past marking owns its row, in memory, on disk and in any snapshot being written |
| `OutboxProtocol.RowsMoveForward` | internal/store/memory.go:449-651 | no step but a crash reuses a row number, drops a row, or reopens a closed one |
| `MemoryStores.MemoryStore.ClaimOutbox` | internal/store/memory.go:471-503 | hands out the due rows in order of due time and number, up to the limit, none passed over, and changes exactly those |
| `MemoryStores.ClaimFrom` | internal/store/memory.go:471-503 | the claiming loops meet that step relation |
| `StoreLaws.OldestFirst` | internal/store/memory.go:471-503 | a due row is passed over only if as many as asked for, or one, were taken that were due before it |
| `StoreLaws.ClaimedIsCounted` | internal/store/memory.go:489-502 | a claim counts one attempt more and stamps worker and time; message, provider and bound stay |
| `MemoryStores.MemoryStore.RequeueStaleOutbox` | internal/store/memory.go:585-609 | gives back stale claims, all of them unless the limit is reached, and changes nothing else |
| `MemoryStores.RequeueFrom` | internal/store/memory.go:585-609 | the requeue loop meets that step relation whatever order the map is walked in |
| `StoreLaws.RequeuedIsDue` | internal/store/memory.go:585-609 | a requeued row can be claimed from that time on, with its attempts kept |
| `StoreLaws.StaleIsRequeued` | internal/store/memory.go:585-609 | a stale claim is left only if as many as asked for, or a thousand, were requeued |
| `StoreLaws.MarkedIsMine` | internal/store/memory.go:505-521 | a worker is told to send exactly when the row is its own, claimed or sending; then no claim or requeue takes the row and no other worker can mark, complete or give it up |
| `MemoryStores.MemoryStore.CompleteOutboxSend` | internal/store/memory.go:523-557 | records message, receipt rows and the row together or not at all, as `StoreLaws.CompletedIsRecorded` spells out; a done row is done already |
| `StoreLaws.CompletedIsRecorded` | internal/store/memory.go:523-557 | a completed send leaves under each id given the last row given for it, counting from one, every other row as it was, the message sent under the first id and all others untouched, and its outbox row closed for good |
| `StoreLaws.CompletedIsFiled` | internal/store/memory.go:768-780 | receipt rows stay under their own ids and count from one |
| `Dispatch.SentRows` | internal/dispatch/dispatcher.go:843-877 | one receipt row for each part, numbered in order, under the id the provider gave or the gateway's own; one row if it gave none |
| `Dispatch.SentIsAccepted` | internal/dispatch/dispatcher.go:878-887 | such a completion is refused only for a missing message or an empty id |
| `Dispatch.SentStartsReceipts` | internal/dispatch/dispatcher.go:853-887 | with different ids, and no row of the message before, it leaves exactly the state from which receipt handling starts |
| `Dispatch.CompleteIffDistinct` | internal/dispatch/dispatcher.go:853-877 | once every row has a final state the message is complete if and only if no id was repeated |
| `Dispatch.UnnamedPartsRepeat` | internal/dispatch/dispatcher.go:846-850 | two parts the provider did not name share an id |
| `MemoryStores.ValidateCompletion` | internal/store/memory.go:782-798 | accepts a completion exactly when it names at least one row and every row has an id and belongs to the outbox row |
| `MemoryStores.MemoryStore.MarkOutboxUncertain` | internal/store/memory.go:559-583 | the new store for every state and worker, errors included, as `StoreLaws.UncertainIsClosed` spells out |
| `StoreLaws.UncertainIsClosed` | internal/store/memory.go:559-583 | a row given up is never claimed, requeued, sent, acknowledged, retried or completed, and its message and no other has an unknown fate |
| `StoreLaws.AcknowledgedIsClosed` | internal/store/memory.go:611-625 | an acknowledged row can never be claimed, requeued, marked, acknowledged or failed again |
| `StoreLaws.FailedIsRetriedOrClosed` | internal/store/memory.go:627-651 | a failed row is claimable from the retry time on exactly when attempts and a time are left, and was claimed then; otherwise it is closed for good |
| `MemoryStores.MemoryStore.SubmitAtomic` | internal/store/memory.go:702-766 | sweep, repeat check, quota check and all writes together equal the specification function on the whole store; `StoreLaws.SubmittedIsQueued` and `Submissions` say what that does |
| `StoreLaws.SubmittedIsQueued` | internal/store/memory.go:702-766 | an accepted submission is a new row for its message and provider, untried, with its attempts or five, due exactly from now on; other rows are as they were and the message is found under its id |
| `StoreLaws.OutcomeIs` | internal/store/memory.go:702-766 | every submission is answered: the first id while its key lives, an error for a debit without tenant, segments or date, over the limit, else a new row; without a positive limit the quota never refuses |
| `StoreLaws.AcceptedIsEntered` | internal/store/memory.go:722-737 | an accepted key is kept for the time asked or a day, and exactly a limited submission is charged |
| `StoreLaws.SubmittedIsSent` | internal/dispatch/dispatcher.go:802-887 | the row claimed, marked and completed makes that message sent under the provider's first id |
| `MemoryStores.MemoryStore.TrimMessages` | internal/store/memory.go:834-844 | keeps the newest messages and an index that finds each of them |
| `StoreLaws.NewestKept` | internal/store/memory.go:834-844 | a new message joins the newest ones, as many as the bound allows |
| `MemoryStores.MemoryStore.SweepLocked` | internal/store/memory.go:820-832 | removes exactly the expired receipt rows and lapsed keys |
| `MemoryStores.MemoryStore.ListPendingByGatewayId` | internal/store/memory.go:378-398 | lists each receipt row of the message once, in segment order |
| `MemoryStores.ListRows` | internal/store/memory.go:384-397 | the collecting and sorting loop gives such a listing whatever order the map is walked in |
| `MemoryStores.MemoryStore.DeletePendingByGatewayId` | internal/store/memory.go:407-416 | removes exactly the receipt rows of the message |
| `StoreLaws.RecordedIsUndelivered` | internal/store/memory.go:293-307 | after a receipt is recorded no listing of its message counts as all delivered, so its rows are not cleared |
| `StoreLaws.DeferredIsKept` | internal/store/memory.go:309-338 | a deferred receipt outlives every sweep; once delivered its row goes exactly when its time is up |
| `MemoryStores.MemoryStore.UpdateMessageState` | internal/store/memory.go:231-244 | changes state and error code of the one message with the id |
| `FileStores.ReadSnapshot` | internal/store/file.go:72-116 | claims go back to pending, every other row state survives, the counters go on from the largest number in use, as `StoreLaws.RestartKeepsRows` spells out |
| `StoreLaws.RestartKeepsRows` | internal/store/file.go:84-95 | a row pending or claimed in the snapshot is claimable exactly from its due time on, any other is unchanged, and message, provider, attempts and bound stay |
| `StoreLaws.RestartKeepsReceipts` | internal/store/file.go:72-83 | receipt rows, messages, client keys and quota come back as they were |
| `OutboxProtocol.DiskBehindOfRun` | internal/store/file.go:119-190 | in every run the file and the snapshot being written are earlier stages of the rows in memory |
| `OutboxProtocol.RestartClosesNothing` | internal/store/file.go:84-95 | in every run a restart that finds its file brings back the rows in it and no others; one that was open is due again, for the same message and provider, and none is closed that was not |
| `FileStores.FileStore.constructor` | internal/store/file.go:48-68 | opening loads the file, or starts empty when there is none |
| `FileStores.FileStore.Persist` | internal/store/file.go:119-190 | the file is the memory store exactly when nothing failed; if the second rename fails there is no file |
| `FileStores.FileStore.MarkOutboxSending` | internal/store/file.go:287-292 | a worker is told to go on only when the mark is in the file |
| `Submissions.UsageIsBilled` | internal/store/memory.go:722-730 | at every point of every history the usage of a tenant and day equals the segments of its accepted charged submissions |
| `Submissions.AcceptedWithinLimit` | internal/store/memory.go:715-730 | a charged submission is accepted if and only if it is no repeat, well formed, and fits what is left of its limit |
| `Submissions.NeverOverLimit` | internal/store/memory.go:726-729 | a day's bill never exceeds a limit its submissions share |
| `Submissions.RepeatAnswersFirst` | internal/store/memory.go:714-738 | with a clock that does not step back, until its key expires every repeat gets the first id and adds no row, message or debit |
| `Submissions.ExpiredKeyIsFree` | internal/store/memory.go:714-719 | the next submission under a key is a repeat if and only if it comes before the expiry instant |
| `GatewayIds.GatewayIdRoundTrip` | internal/store/id.go:5-19 | parsing inverts printing for every number below 36^7, and larger ones are refused; an id is m and seven small letters or digits |
| `IdAllocation.IdAllocator.Next` | internal/dispatch/idalloc.go:27-41 | a call is a reservation step if the range is used up and then a hand-out step of the machine whose numbers never repeat |
| `StoreLaws.ReservedAreNext` | internal/store/memory.go:438-447 | a reservation takes as many numbers as asked for, or one, the next after those taken before |
| `IdAllocation.NumbersNeverRepeat` | internal/store/file.go:263-269 | no number is handed out twice by any allocators over any number of restarts |
| `IdAllocation.IdsNeverRepeat` | internal/dispatch/dispatcher.go:1274-1284 | nor is a gateway id |
| `IdAllocation.HandedIsDurable` | internal/store/file.go:99-104 | a number handed out is covered by the file |
| `IdAllocation.LostFileRepeatsNumbers` | internal/store/file.go:183-189 | any number handed out before a restart can be the next one handed out after it, with no further restart, if and only if the restart fell between the two renames |
| `IdAllocation.NumberRepeats` | internal/store/file.go:183-189 | a run from the start in which number 1 is handed out twice that way |
| `Aggregation.AggregateDLR` | internal/dispatch/dispatcher.go:1313-1358 | final exactly when every expected segment is present and final; then REJECTD if any segment is, else UNDELIV, EXPIRED, DELETED or UNKNOWN if any is, in that order, with the code of the first such segment, else DELIVRD |
| `Aggregation.SpellingIgnored` | internal/dispatch/dispatcher.go:1330 | a state is read as its word whatever its case and the space around it |
| `Receipts.ReceiptsConfluent` | internal/dispatch/dispatcher.go:546-615 | however the handlers interleave, when all have finished no receipt row is left and the message is rejected if any receipt says so, else undelivered, expired, deleted or unknown, with the code of the first such receipt, else delivered |
| `Receipts.SomeHandlerCanStep` | internal/dispatch/dispatcher.go:1257-1272 | no deadlock: some unfinished handler can always take its next step |
| `Receipts.StepsBounded` | internal/dispatch/dispatcher.go:546-615 | at most eight handler steps per segment in any run |
| `ReceiptExpiry.FinalOnlyWhenAll` | internal/dispatch/dispatcher.go:546-615 | in every history, with expiry in every sweep, early exits, deferrals and repeated receipts, a final verdict was made on a listing with all segments in final states, after a final receipt for each |
| `ReceiptExpiry.UnsettledUntilAll` | internal/dispatch/dispatcher.go:571-580 | the message is unchanged until a final receipt has come for every segment |
| `ReceiptExpiry.LostNeverFinal` | internal/store/memory.go:820-832 | once the row of a segment has expired no later listing is judged final |
| `ReceiptExpiry.InvOfHistory` | internal/store/memory.go:293-398 | at every point of every history the rows are those of the start with their segment numbers, final only by a receipt that came |
| `Receipts.InvOfRun` | internal/dispatch/dispatcher.go:1377-1393 | rows, verdicts and message agree with the handlers' stages in every run, so the rows are cleared by the last one |
| `Gsm7.DefaultTableGood` | internal/message/codec.go:76-113 | the alphabet has one @ at 0, one ? at 0x3F, nothing at the escape, and no extension rune |
| `Gsm7.EncodeGsm7Packed` | internal/message/codec.go:232-256 | OR-ing septets into an octet array packs them |
| `Gsm7.DecodeGsm7Packed` | internal/message/codec.go:115-152 | the bit-reading loops compute the decoding function on every body |
| `Gsm7.ToSeptets` | internal/message/codec.go:60-74 | one code, an escape and a code, or ? for each rune |
| `Gsm7.UnpackPack` | internal/message/codec.go:115-133 | unpacking inverts packing for every septet sequence, except a zero in the last place of a full group |
| `Gsm7.BitsInOrder` | internal/message/codec.go:245-260 | bit n of the packed octets, lowest bit first, is bit n of the septets |
| `Gsm7.PlainIsAscii` | internal/message/codec.go:76-85 | letters and digits are sent as their ASCII codes |
| `Gsm7.PackedRoundTrip` | internal/message/codec.go:115-256 | decoding inverts encoding on every text up to ? for foreign runes, less a final @ exactly when the septets are a positive multiple of eight |
| `Gsm7.AlphabetRoundTrip` | internal/message/codec.go:115-256 | on the alphabet the text comes back if and only if that last @ is not in the way |
| `Gsm7.LastAtLost` | internal/message/codec.go:115-152 | eight @ come back as seven |
| `Ucs2Text.EncodeUcs2` | internal/message/codec.go:37-44 | the octets of the UTF-16 units, high octet first |
| `Ucs2Text.DecodeUcs2` | internal/message/codec.go:7-15 | pairs joined, lone surrogates replaced; an odd number of octets is not decoded |
| `Ucs2Text.Ucs2RoundTrip` | internal/message/codec.go:5-44 | decoding inverts encoding for every text |
| `Ucs2Text.SurrogateBits` | internal/message/codec.go:38-43 | a rune beyond the first plane is its twenty bits, ten in each unit, behind the prefixes 110110 and 110111 |
| `Ucs2Text.UnitsOfRunes` | internal/message/codec.go:7-15 | encoding inverts decoding if and only if no surrogate stands alone |
| `Segmentation.ChunkSized` | internal/message/message.go:179-228 | greedy parts: nothing lost, each within the limit, each full |
| `Segmentation.ChunkRunes` | internal/message/message.go:153-165 | slicing gives the same greedy parts when every rune counts one |
| `Segmentation.Split` | internal/message/message.go:86-133 | one whole segment within the single limit, else greedy parts numbered 1 to total under one reference |
| `Segmentation.DetectEncoding` | internal/message/message.go:77-84 | GSM 7-bit exactly when every rune is in its alphabet |
| `Segmentation.SplitIsOptimal` | internal/message/message.go:110-117 | no cut of the text into fitting parts has fewer of them |
| `Segmentation.Join` | internal/message/message.go:135-151 | the insertion sort and concatenation compute the stable order by part number |
| `Segmentation.JoinAfterSplit` | internal/message/message.go:86-151 | the segments of a text in any order join to the text |
| `Segmentation.SegmentsFit` | internal/message/message.go:86-133 | every encoded segment and its header fit in 140 octets under a known encoding, and under an unknown one exactly when its septets are within the limit |
| `Segmentation.UnknownOverflows` | internal/message/message.go:104-112 | 81 braces under an unknown encoding are one segment that does not fit |
| `Segmentation.WeightIsSeptets` | internal/message/message.go:167-177 | the counted length is the number of septets the encoder emits |
| `SmppFields.ReadCStringMax` | internal/smpp/pdu.go:99-113 | the string up to its NUL and where the next field starts, or an error when it is too long or unterminated |
| `SmppFields.CStringReads` | internal/smpp/pdu.go:83-113 | a NUL-free string written is read back exactly when it is within the maximum |
| `SmppFields.ParseTlvs` | internal/smpp/tlv.go:29-45 | the parameters whose encoding the body is; an error exactly when it is the encoding of none |
| `SmppFields.HeadReads` | internal/smpp/submit.go:31-60 | service type, addresses and flags written are read back exactly when in range |
| `SmppFields.HeadRead` | internal/smpp/submit.go:31-60 | and nothing else is read |
| `SmppFields.TailReads` | internal/smpp/submit.go:61-92 | times, delivery fields, short message and parameters written are read back exactly when in range |
| `SmppFields.SubmitLayout` | internal/smppclient/encode.go:206-224 | the order of the fields of submit_sm, octet by octet |
| `SmppFields.TlvLayout` | internal/smppclient/encode.go:228-234 | tag and length of an optional parameter, high octet first, then its value |
| `Smpp.SplitUdhOf` | internal/smpp/udh.go:11-44 | the loop accepts exactly the headers made of proper elements |
| `Smpp.UdhReads` | internal/smpp/udh.go:11-75 | a header of proper elements is split off and its first concatenation element is its concatenation |
| `Smpp.UdhRead` | internal/smpp/udh.go:11-44 | every accepted header is made of proper elements |
| `Smpp.ParseConcat` | internal/smpp/udh.go:46-75 | the first concatenation element among the readable ones, also of a damaged header |
| `Smpp.ConcatHeaders` | internal/smpp/udh.go:62-71 | the elements with a reference of one octet and of two are read as reference, total and part |
| `Smpp.RepeatsSarIn` | internal/smpp/submit.go:143-155 | whether two segmentation parameters share a tag |
| `Smpp.HasSarIn` | internal/smpp/udh.go:94-102 | whether any segmentation parameter is there |
| `Smpp.FindTlvIn` | internal/smpp/tlv.go:47-54 | the value of the first parameter with the tag |
| `Smpp.Interpret` | internal/smpp/submit.go:93-121 | the order of the checks does not matter: message, header and concatenation, or the contradiction between them |
| `Smpp.ParseSubmit` | internal/smpp/submit.go:31-141 | the offset-keeping parser computes the field-wise reading of every body |
| `Smpp.ParsedWritten` | internal/smpp/submit.go:31-141 | every field laid out is parsed back into its own place, with the offset of the optional parameters; refused exactly when out of range or contradictory |
| `Smpp.ParsedOnlyWritten` | internal/smpp/submit.go:31-141 | every accepted body is the layout of fields in range |
| `SmppClient.BuildBody` | internal/smppclient/encode.go:206-235 | the appended octets are the layout of the request, with messages above 254 octets moved to message_payload; `Relay.RequestAddressed` says where it goes |
| `SmppClient.BuildSegments` | internal/smppclient/encode.go:114-170 | one request for each segment of a split of the text |
| `SmppClient.BuildSubmit` | internal/smppclient/encode.go:17-148 | one request or one for each segment, as parameters, header, mode and raw payload decide; `LongTexts.SubmitAddressed` says where they go |
| `SmppClient.CodingKept` | internal/smppclient/encode.go:18-31 | a data coding given is kept; none given becomes UCS-2 exactly for a text named so, or unnamed with a rune outside the GSM alphabet |
| `Relay.RelayIsExact` | cmd/mysmpp/main.go:200-230 | in each long-message mode the provider reads the header, octets, data coding and concatenation the client sent, from and to the numbers given without their plus, if and only if the other fields are in range |
| `Relay.RequestParsed` | internal/smppclient/encode.go:206-235 | a built request is accepted exactly when its message means something and its fields are in range |
| `Relay.RequestAddressed` | internal/smppclient/encode.go:206-235 | an accepted request is from the message's source to its destination, each without a leading plus, asks for the receipts configured or else those of the message, and carries service type, number types and validity as configured |
| `Relay.WholeArrives` | internal/smppclient/encode.go:46-112 | a message sent whole arrives with its octets, and its header as it is or as parameters with the same numbers |
| `Relay.PayloadModeKept` | internal/smppclient/encode.go:80-97 | in payload mode the octets of a message without header travel in message_payload, however few |
| `LongTexts.SubmitAddressed` | internal/smppclient/encode.go:17-170 | the same addresses and fields for every accepted request built, whole or segmented |
| `LongTexts.PartsArrive` | internal/smppclient/encode.go:114-148 | each part of a split arrives with its octets and coding, its number, their total and the one reference, by parameters or by header as the mode says |
| `LongTexts.SubmitFits` | internal/smppclient/encode.go:114-148 | header and packed octets of each part are within 140 under the data coding announced |
| `LongTexts.EndToEnd` | internal/smppclient/encode.go:114-148 | for every coding all parts of a split text are accepted if and only if there are at most 255; readable ones join to the text in any order of arrival if and only if none comes back cut short |
| `LongTexts.Ucs2SubmitArrives` | internal/smppclient/encode.go:17-148 | whatever a segmented build of a UCS-2 text returns joins to the text |
| `LongTexts.Gsm7SubmitArrives` | internal/smppclient/encode.go:17-148 | the parts of a packed GSM 7-bit text join to it if and only if none ends in @ and fills its last group of eight septets |
| `LongTexts.LatinSubmitArrives` | internal/smppclient/encode.go:17-148 | the parts of a Latin-1 text sent with packing join to it if and only if all its runes have an octet |
| `LongTexts.AutoSubmitArrives` | internal/smppclient/encode.go:17-148 | left to the gateway every text is sent so that it comes back, except a GSM 7-bit text of which a part ends like padding |
| `LongTexts.UnpackedReads` | internal/smppclient/encode.go:237-245 | without packing the octets are the septets of the text |
| `LongTexts.LatinUnpackedIff` | internal/smppclient/encode.go:237-245 | a Latin-1 text sent without packing comes back if and only if its runes have the same codes in both alphabets |
| `LongTexts.LatinUnpackedLost` | internal/smppclient/encode.go:237-245 | @ has not |
| `LongTexts.HeaderedIff` | internal/smppclient/encode.go:150-170 | with a header on every part all parts arrive as sent if and only if there are at least two |
| `LongTexts.LoneHeaderHappens` | internal/smppclient/encode.go:72-77 | an empty text under a header of 255 octets is refused |
| `LongTexts.PaddingInside` | internal/message/message.go:179-202 | a part before the last does so exactly when it ends in @ at 152 septets, before a rune of the extension table |
| `Window.SlotsConserved` | internal/smppclient/window.go:28-83 | in every interleaving slots used equal registered, about to register and taken out but not freed, and stay within the size |
| `Window.NothingBlocks` | internal/smppclient/window.go:45-83 | whoever has a result to send or a slot to free can do it at once |
| `Window.AnsweredOnce` | internal/smppclient/window.go:45-72 | each submit gets one result, once it was taken out, and its channel never holds two |
| `Window.ReleasedForGood` | internal/smppclient/connection.go:270-316 | a submit only moves forward, so its slot is freed once |
| `Window.QuietMeansFree` | internal/smppclient/window.go:74-83 | when all goroutines are done every slot is free and every submit was answered |
| `Window.DrawnDistinct` | internal/smppclient/connection.go:356-362 | sequence numbers drawn within 2^32 - 1 draws of each other differ |
| `Keywords.LinksRightIff` | internal/filter/ahocorasick.go:49-61 | the links set by the walk over the links set so far, in any visiting order, are the longest proper suffixes if and only if no keyword prefix has an inner keyword prefix |
| `Keywords.RankFalls` | internal/filter/ahocorasick.go:52-58 | a measure that falls along every link the rule can set, so following links ends for every keyword list |
| `Keywords.BuiltIsOk` | internal/filter/ahocorasick.go:44-64 | each link is right as long as shorter ones are, runs of one rune have the links of a stated recurrence, and each word reports its own keywords first |
| `Keywords.AdvanceIsLongest` | internal/filter/ahocorasick.go:80-89 | following right links reaches the longest suffix that is a keyword prefix |
| `Keywords.GroupsComplete` | internal/filter/ahocorasick.go:68-105 | without inner prefixes every keyword ending at a rune is reported there as often as it is configured |
| `Keywords.FoundExactly` | internal/filter/ahocorasick.go:68-105 | such reports are the occurrences of the keywords, all and only, with their byte bounds |
| `Keywords.MissedOccurrence` | internal/filter/ahocorasick.go:49-62 | searching a shortest keyword prefix whose inner prefix is a keyword does not report that keyword at its end |
| `Keywords.SearchExactIff` | internal/filter/ahocorasick.go:25-105 | where there is no inner prefix, or one of the shortest is a keyword, the search is exact on every text if and only if there is none |
| `Keywords.MissedSuffix` | internal/filter/ahocorasick.go:49-62 | with abc and bc the search of abc does not report bc, in any visiting order |
| `Keywords.RunExactIff` | internal/filter/ahocorasick.go:25-105 | one keyword of n equal runes is searched exactly on every text if and only if n is 1 or two less than a power of two |
| `Keywords.LinkOneShorterIff` | internal/filter/ahocorasick.go:49-61 | for exactly those n the link of n equal runes is the right one |
| `Keywords.HarmlessInner` | internal/filter/ahocorasick.go:49-62 | aaaaaa has inner prefixes and its search is exact on every text |
| `KeywordFilter.BuildAutomaton` | internal/filter/ahocorasick.go:25-66 | for every keyword list the nodes hold the links and reports of that rule for some visiting order |
| `KeywordFilter.Find` | internal/filter/ahocorasick.go:68-105 | for every keyword list the matches are what the links as built lead to; without inner prefixes they are complete |
| `Masking.NormalizeWithMap` | internal/filter/normalize.go:15-41 | the loop computes the normalised text and its offset map |
| `Masking.ZeroWidthIgnored` | internal/filter/normalize.go:43-50 | a zero-width rune in between makes no difference where those are stripped |
| `Masking.WidthAndCaseIgnored` | internal/filter/normalize.go:23-28 | nor does the wide form of a printing rune where width is folded, nor its case where that is; every other printing rune is kept |
| `Masking.MapIsFaithful` | internal/filter/normalize.go:15-41 | the map is monotone and takes rune boundaries to rune boundaries, different ones to different ones |
| `Masking.MaskText` | internal/filter/engine.go:173-193 | some intervals, disjoint and in order, are replaced, all else is copied, and every non-empty one loses its first byte |
| `Masking.MaskStands` | internal/filter/engine.go:173-193 | the mask of each interval replaced stands where it stood, moved by the growth of those before it |
| `Masking.GapCopied` | internal/filter/engine.go:173-193 | and so does every byte between two of them |
| `Masking.TailCopied` | internal/filter/engine.go:173-193 | and every byte behind the last |
| `Masking.HitIsMasked` | internal/filter/engine.go:157-193 | every hit has the stretch from where it begins to the end of its own first rune replaced, stripped runes before it included |
| `Filtering.SortHits` | internal/filter/engine.go:109-116 | ordered by action and priority, and the first is the earliest hit that no other outranks |
| `Filtering.CollectMaskHits` | internal/filter/engine.go:157-171 | the intervals of the mask hits of that rule name, all and only, carried back to the original |
| `Filtering.OnlyMaskHits` | internal/filter/engine.go:157-171 | each stretch collected is that of a hit of a masking rule of that name, with that rule's mask |
| `Filtering.CollectTags` | internal/filter/engine.go:118-123 | the tags of the tagging rules hit, all and only |
| `Filtering.Evaluate` | internal/filter/engine.go:92-140 | the decision of that earliest highest hit of keywords and expressions, with its rule's hits masked, and the tags |
| `Filtering.DecidedByOccurrences` | internal/filter/engine.go:92-140 | a text is blocked exactly when a keyword or expression of a blocking rule occurs in its normalised form, masked exactly when only one of a masking rule does, and tagged with exactly the tags of the tagging rules that occur |
| `Filtering.ReasonIsHighest` | internal/filter/engine.go:109-140 | the reason given is the name of the first hit rule of highest priority among those of the deciding action |
| `Filtering.OccurrenceIsMasked` | internal/filter/engine.go:131-193 | a masked text is the original with some of the hits collected for the deciding name replaced, and one of those holds the whole first rune of each occurrence of a keyword of that name |
| `TokenBucket.Limiter.Allow` | internal/tenant/tenant.go:135-165 | refill, cap and take for the tenant, other buckets untouched; `TokenBucket.AllowedIff` says what that allows |
| `TokenBucket.AllowedBound` | internal/tenant/tenant.go:135-165 | calls allowed are at most the burst plus tps times the advance of the latest clock, however the clock moves |
| `TokenBucket.AllowedFromFirst` | internal/tenant/tenant.go:142-150 | the same bound for a tenant's calls from the first one on, which starts with a full bucket |
| `TokenBucket.BurstAllowed` | internal/tenant/tenant.go:157-163 | the burst can be used up at one instant |
| `TokenBucket.AllowedIff` | internal/tenant/tenant.go:150-163 | n calls at one instant after any wait are all allowed if and only if n is at most the burst and at most the tokens held plus tps for each second waited |
| `TokenBucket.FreshAllowed` | internal/tenant/tenant.go:139-148 | a new tenant, or one with new limits, may call at once as often as the burst, or the rate where none is given, and no more |
| `TokenBucket.SpacedAllowed` | internal/tenant/tenant.go:135-165 | calls at least 1/tps apart are all allowed, however many |
| `Router.MatchRoute` | internal/router/router.go:123-150 | the first route that no matching route beats in priority, then matched prefix length |
| `Router.MatchPhone` | internal/router/router.go:66-97 | on every table the choice of the table whose routes have no condition but their prefixes |
| `Router.OneBest` | internal/router/router.go:66-150 | that choice is unique, so the two agree |
| `Router.BestIsClosest` | internal/router/router.go:123-150 | whenever a route applies one is chosen, of the highest priority, with no other of that priority naming the number by a longer prefix, and the first of those that name it as closely |
| `Router.MatchedPrefixLen` | internal/router/router.go:207-218 | the longest matching prefix, 0 without prefixes |
| `Router.SumWeights` | internal/router/router.go:240-253 | the total of the enabled weights, or an error for a weight or sum out of range |
| `Router.Choose` | internal/router/router.go:257-268 | the walk always ends at an enabled entry, the one whose share holds the residue |
| `Router.OneChosen` | internal/router/router.go:257-268 | no residue is in two shares |
| `Router.ExactShares` | internal/router/router.go:238-268 | of all residues an enabled entry is chosen for as many as its weight, a disabled one for none |

## Left out

- Outbox rows: the payload is represented by the gateway id and the provider; the text it carries is a parameter of `SmppClient`.
- Dispatcher.Submit: tenant resolution, filtering, routing and the choice of sender are not chained into one model.
- PostgreSQL and Redis stores, HTTP API, admin, configuration, CDRs, metrics and connection set-up are not modelled.
- JSON encoding of the file store: the file holds the snapshot itself; syncing and the order of file system operations other than the two renames are not modelled.
- Keys of receipt rows are pairs of provider and provider id, where the program joins the two with a NUL.
- Encoding names: they are taken after the case-insensitive comparison, and an unknown one is `Other`.
- DecodeSubmitText: the guess whether a data coding 0 body is unpacked ASCII is a heuristic without a promise; the parsed text is therefore not a field of `SubmitSm`.
- Octets returned as a string by the decoder for an odd UCS-2 body are represented by None.
- Type of number and numbering plan of the source address are parameters; the program derives them from the address.
- Receipts: confluence is stated for handlers that run to the end; with expiry, early exits and deferrals `ReceiptExpiry` states that nothing is final early, not that everything becomes final.
- ReceiptExpiry: the locks on provider ids are left out, which only allows more interleavings; flushing deferred receipts is part of the steps taken elsewhere.
- Aggregation: upper-casing and trimming of receipt states are those of ASCII; the program's are those of Unicode.
- Receipts.SomeHandlerCanStep: the retry loop around the first look-up is one step.
- Keywords.SearchExactIff: where no shortest inner prefix is a keyword, only one direction is stated for all keyword lists, that the search is exact without inner prefixes; `Keywords.RunExactIff` shows that the other does not hold there and settles one family.
- Keywords: the visiting order is any in which a word follows the word it extends; that it is breadth first is not used.
- Filtering: the compilation of rules is not modelled; actions are a type, what the regular expressions find is a parameter, and so are the octets of the text, as many as its runes take.
- Masking: lower-casing is a parameter.
- TokenBucket.AllowedBound: tokens are real numbers, not floating-point ones.
- Router: time windows, tags and sender conditions are one flag of the route; the hash that gives the residue is a parameter.
- IdAllocation: 64-bit overflow of the counter is not modelled; ids end at 36^7 long before.
- Window: outstanding sequence numbers are taken to be distinct, which `Window.DrawnDistinct` gives for fewer than 2^32 - 1 of them. A submit that times out or is cancelled leaves its result unread in its own channel, which the model allows by not requiring Receive.
- SaveIdempotency has no caller in the gateway and is not an event of `Submissions`.
