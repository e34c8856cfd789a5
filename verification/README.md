# Models of the framework's algorithms and protocols

This project states what the hand-written algorithms of the framework compute, and proves what
they promise: unique short codes, the wire format of server-sent events and the hub behind it,
the path matcher, import rewriting, JSON shape merging and identifier linting, the merge of
generated Go code, the lazy container, the slog handler, the ECB block cipher driver, the texts of
error codes, and the resource alarm. `dafny verify dfyconfig.toml` checks everything.

Each module follows one source file or package. Code that updates state in the source is a method
or a class, proved against a function; the theorems are about these functions, and about all
inputs, all runs or all interleavings.

| module | what it models |
|---|---|
| `Wrappers` | an optional value and the associativity of concatenation |
| `Text` | the Go string functions the others use |
| `Numbers` | congruences, Bezout coefficients, digits in a base |
| `UniqueCode` | the affine step, digit, diffusion and permutation loops of `NewCode`, with 64-bit and 8-bit wrap-around |
| `EventStream` | the printer `sendEvent` and the parser `stream` of server-sent events |
| `EventStandard` | sections 9.2.5 and 9.2.6 of the WHATWG HTML standard, and when the client parser agrees with them |
| `Hub` | `Hub.run`, the push path, the task pool and the handlers of `Serve`, as one state machine |
| `Replay` | the paging loop `resendEvents` over any store that keeps its contract and may grow meanwhile |
| `Handover` | `Serve`, `Hub.run` and `Push` around one client that reconnects: replay and live delivery together |
| `MonoRepo` | `adaptMonoRepo`: three replacements in the random order of a Go map |
| `Wildcard` | `matchPath` and `matchWildcard` against the meaning of a glob |
| `JsonMerge` | `mergeElements` and `mergeObjects` |
| `FieldNames` | `lintFieldName`, which shrinks its rune slice in place, and `FmtFieldName` |
| `GoMerge` | the passes of `mergeCode` over function declarations |
| `LazyGroup` | `Get`, `Reset` and `Clear` as critical sections of interleaved threads |
| `LogGroups` | the handler's list of groups, its copies and its rendering, and the same on Go's memory, where `append` shares arrays |
| `BlockCipher` | padding and the ECB loops over an abstract block cipher |
| `ErrorText` | printing and parsing of error codes |
| `AlarmWindow` | the three-sample window and the pause between alarms |

## Where the code does less than its documentation

Each of these is stated as an exact condition, with an input that shows the failure.

- `pkg/rid/rid.go` salts codes with a machine hash. Close to 2^64 the salted number wraps, and two
  counters below the number of codes get one identifier (`UniqueCode.RidCollision`); `CrossWraps`
  says which counters share an identifier, `RunUniqueIff` which runs of counters stay unique.
- Co-prime multipliers, which `pkg/id/options.go` asks for, are not enough: byte arithmetic overflows
  for large alphabets and lengths (`UniqueCode.ByteOverflowCollides`). `UniqueCode.SpellInjectiveIff`
  has the settings under which different digits are spelled differently, `UniqueCode.CodesUniqueIff`
  those under which as many numbers in a row as there are codes get different ones, and
  `UniqueCode.LongCodesIff` decides codes that are longer than a 64-bit number needs.
- `matchWildcard` lets the last part of a pattern overlap what was matched before, so `a*a` accepts
  `a` (`Wildcard.OverlapAccepted`, `Wildcard.AcceptsIsGlobWithRoom`, and on the pattern alone, for any
  number of stars, `Wildcard.ExactIff`). A pattern that ends in slash-star drops the slash.
  `Wildcard.MatchPathExactIff` has the skip paths that are read as they are meant.
- `adaptMonoRepo` depends on the map order for exactly those server names that look like one of the
  rewritten directories (`MonoRepo.OrderIndependentIffSafe`, `MonoRepo.OrderMatters`).
- On every blank line section 9.2.6 of the WHATWG HTML standard clears type and data, and keeps the
  last event id. The client keeps a type that no data followed (`EventStandard.TypeSticks`), and type
  and data of a payload that does not unmarshal (`EventStream.BadPayloadSticks`). `SameEventsIff` of
  `EventStandard` has the streams, of any lines, on which both make the same events; `PlainIff` the
  lines that both read alike, which leaves out bare field names and additional white space; and
  `LeftoversIff` says when the leftovers do no harm to a stream of such lines.
- The client knows only line feeds, where section 9.2.5 also ends a line at a carriage return. It sees
  the same lines iff there is no carriage return (`EventStandard.SameLinesIff`), and delivers nothing
  if one stands before every line feed (`EventStream.CarriageReturns`).
- Whoever unregisters removes the map entry of the user, also one that a later connection put there
  (`Hub.ReconnectGoesDark`, `Hub.ReachableIffNoOverlap`).
- `Serve` goes on to replay stored events before `run` has put the client into its map. An event
  pushed meanwhile can be handed over twice or not at all (`Handover.TwiceHandedOver`,
  `Handover.NeverHandedOver`, `Handover.HandedOver`).
- Merging values of different types yields null, which the next value replaces, so keys get lost
  (`JsonMerge.KeysForgotten`). The caller checks for one type only on the outermost list;
  `JsonMerge.MergeShowsIff` has the condition at every depth.
- The comment on groups in `pkg/otelslog/handler.go` shows nested groups without attributes of
  their own; the code leaves them out (`LogGroups.CommentExample`, `LogGroups.AsDocumentedIff`).
- Two records that one handler renders can share the arrays behind its groups; the second then
  overwrites what the first shows (`LogGroups.EarlierRecordChanges`, `LogGroups.EarlierRecordKeptIff`).
- Padding cuts its length to a byte, so block sizes above 255 do not decrypt
  (`BlockCipher.BlockSizeIff`).
- `mergeCode` drops a generated function whose name is that of another kind of declaration, such as
  `main` in a package `main` (`GoMerge.MainIsLost`, `GoMerge.MergedOnce`). Merging the same code again
  can bring in a method lost in this way (`GoMerge.GroupRevives`, `GoMerge.MergeAgainIff`).
- `GetErrorCode` turns a code into an HTTP status also if message or details happen to spell the
  label (`ErrorText.ErrCode`, `ErrorText.DetailsSpellLabel`), and the message parsed from an error
  keeps its details, and the label of `ErrToHTTP` (`ErrorText.ErrMessageIff`, `ErrorText.LabelStays`).
- `Get` can return an object of a replaced constructor between the two critical sections of `Reset`
  (`LazyGroup.StaleGet`, `LazyGroup.StaleIffHalfReset`).

## Model

| member | source | states |
|---|---|---|
| UniqueCode.NewCode | pkg/id/code.go:4-31 | the loops over a rune array compute `Code`, a panic included |
| UniqueCode.UndiffuseDiffuse | pkg/id/code.go:18-23 | subtracting `i` times digit 0 undoes the diffusion step, unless an overflow of the byte addition does harm |
| UniqueCode.DiffuseUndiffuse | pkg/id/code.go:18-23 | under the same condition every sequence of digits is the diffusion of some digits |
| UniqueCode.SourceIsPermutation | pkg/id/code.go:25-29 | the confusion step moves every entry to exactly one position |
| UniqueCode.CoprimeSources | pkg/id/code.go:25-29 | a multiplier co-prime to the length sends no two positions to one entry, if the byte product does not overflow |
| UniqueCode.SpellInjectiveIff | pkg/id/code.go:18-29 | different digits, those of no 64-bit number included, are spelled differently iff the alphabet has one character, or at most 255 different ones, byte overflow is harmless and no two positions share an entry |
| UniqueCode.ReadSpell | pkg/id/code.go:18-29 | under the readable settings the digits can be read back from a code |
| UniqueCode.SpellRead | pkg/id/code.go:18-29 | every text over the alphabet is the code of the digits read from it |
| UniqueCode.SameCodeIff | pkg/id/code.go:10-29 | two numbers share a code iff the enlarged numbers agree modulo the number of codes |
| UniqueCode.UniqueModuloCount | pkg/id/code.go:10-29 | with equally many 64-bit wraps, counted with the signed multiplier, codes agree iff the numbers agree modulo the number of codes |
| UniqueCode.CodesUniqueIff | pkg/id/code.go:10-29 | a run without a wrap of as many numbers as there are codes gets pairwise different ones iff the settings are readable and the first multiplier is co-prime to the size of the alphabet |
| UniqueCode.LongCodesIff | pkg/id/code.go:10-29 | if so many digits as hold 64 bits spread without harm, two numbers share a code, of any greater length, iff the first multiplier times their difference is a multiple of 2^64 |
| UniqueCode.DecodeCode | pkg/id/code.go:10-29 | the explicit decoder recovers the number modulo the number of codes |
| UniqueCode.EveryCodeOnce | pkg/id/code.go:10-29 | a run of numbers as long as the number of codes yields every code exactly once |
| UniqueCode.CrossWraps | pkg/id/code.go:10-29 | across any number of 64-bit wraps two numbers share a code iff they are at one certain distance |
| UniqueCode.RunUniqueIff | pkg/id/code.go:10-29 | the exact condition for a run of numbers with at most one wrap, in either direction, to get pairwise different codes |
| UniqueCode.DefaultSound | pkg/id/options.go:49-72 | the default settings meet the conditions, with 656100000000 codes |
| UniqueCode.RidSound | pkg/rid/rid.go:29-38 | the settings of resource identifiers meet them for every salt, with 36^6 codes |
| UniqueCode.RidCollision | pkg/rid/rid.go:29-38 | a salt and two counters with one identifier |
| UniqueCode.ByteOverflowCollides | pkg/id/code.go:18-23 | 200 characters and length 2: co-prime, and two small numbers collide |
| EventStream.UserClient.SendEvent | pkg/sse/server.go:179-199 | what is on the wire after success, marshalling error and short write, and the closed flag |
| EventStream.SSEClient.ProcessEvent | pkg/sse/client.go:260-291 | the last id, the default type, and what reaches the callback |
| EventStream.SSEClient.ParseField | pkg/sse/client.go:235-245 | one field line, as the branches of the loop read it |
| EventStream.SSEClient.ReadString | pkg/sse/client.go:215-220 | the next complete line, or none |
| EventStream.SSEClient.Stream | pkg/sse/client.go:211-258 | the read loop folds `Feed` over the complete lines of the body |
| EventStream.WireLines | pkg/sse/server.go:180-192 | a printed event is its field lines and a blank one |
| EventStream.StreamRoundTrip | pkg/sse/client.go:211-274 | parsing the text of any clean events and heartbeats delivers exactly these events and goes on |
| EventStream.CutStream | pkg/sse/client.go:211-274 | cut anywhere, the client has delivered the complete events and keeps the last id among them |
| EventStream.NoBlankNoDelivery | pkg/sse/client.go:221-233 | nothing is delivered without a blank line |
| EventStream.RoundTripIff | pkg/sse/server.go:179-199 | an event comes through unchanged iff its id and type are clean |
| EventStream.DeliveredTidy | pkg/sse/client.go:211-274 | everything ever delivered has one-line, trimmed names |
| EventStream.BadPayloadSticks | pkg/sse/client.go:221-233 | a payload that does not unmarshal is glued in front of the next one, and both are delivered as one or not at all |
| EventStream.ParsedIsThrough | pkg/sse/client.go:211-274 | what a stream of events with any payloads delivers, whatever is pending |
| EventStream.ComesThroughIff | pkg/sse/client.go:211-274 | exactly the events with a callback and a valid payload come through unchanged iff none of them meets a pending invalid payload |
| EventStream.CarriageReturns | pkg/sse/client.go:215-233 | the harm: nothing is delivered if a carriage return stands before every line feed |
| EventStandard.SameLinesIff | pkg/sse/client.go:215-220 | the client sees the lines of section 9.2.5 iff the stream has no carriage return |
| EventStandard.PlainIff | pkg/sse/client.go:235-245 | type and data of a line are read as section 9.2.6 says iff it is no bare field name and its value has no white space around it but one space in front |
| EventStandard.SameEventsIff | pkg/sse/client.go:211-274 | on any lines, at every point, what was delivered is what the standard dispatches, as far as it has a callback and a valid payload, iff at every blank line both make the same event |
| EventStandard.SparedIff | pkg/sse/client.go:221-233 | at one blank line, behind plain lines: iff the leftover type or payload does no harm |
| EventStandard.LeftoversIff | pkg/sse/client.go:211-274 | on plain lines the delivered events are those of the standard, at every point, iff the leftovers do no harm at any blank line |
| EventStandard.TypeSticks | pkg/sse/client.go:221-233 | a type without data is used for the next event, where the standard takes the default |
| Hub.SafeStep | pkg/sse/hub.go:169-199 | every step keeps: each map entry is a registered client with an open channel |
| Hub.ChannelSafety | pkg/sse/hub.go:169-199 | on no run is a closed channel sent to or closed again |
| Hub.OnlyTargets | pkg/sse/hub.go:290-308 | no other channel is sent to or closed |
| Hub.OrderedStep | pkg/sse/hub.go:290-308 | every step keeps the order of deliveries |
| Hub.DeliveryOrder | pkg/sse/hub.go:183-193 | each client receives, in order and once, a part of what was dequeued for its user |
| Hub.ConservedStep | pkg/sse/hub.go:241-308 | every step keeps: pushed is delivered, failed, dropped or under way, by any property of events |
| Hub.NothingLost | pkg/sse/hub.go:202-308 | the same on every run, also for a single event |
| Hub.StatsAddUp | pkg/sse/hub.go:413-444 | the published counters add up to what was pushed |
| Hub.TimeoutsBounded | pkg/sse/hub.go:269-308 | timeouts never exceed twice the retry limit for each push |
| Hub.RetriedBeforeGivenUp | pkg/sse/hub.go:269-308 | every event given up has cost the retry limit in timeouts, on every run and by both kinds of sender |
| Hub.RunGivesUpLate | pkg/sse/hub.go:290-308 | between taking an event, with the channel of its client full, and giving it up `run` has timed out as often as the limit says, held that event, and could send it whenever there was room |
| Hub.WorkerGivesUpLate | pkg/sse/hub.go:269-287 | the same for a worker of the pool and the queue |
| Hub.QueueIsFifo | pkg/sse/hub.go:241-253 | events leave the queue in the order in which pushes and workers put them in |
| Hub.PoolIsFifo | pkg/sse/task.go:21-31 | workers take tasks in the order in which they were submitted |
| Hub.CapacityKept | pkg/sse/hub.go:241-308 | no channel ever holds more than its capacity |
| Hub.PoolOnlyWhenFull | pkg/sse/hub.go:244-253 | as long as no push finds the queue full the pool is not used |
| Hub.WhoGetsIt | pkg/sse/hub.go:183-193 | an event goes to the connected client of its user, at once if there is room; without one it is dropped |
| Hub.ReachableStep | pkg/sse/hub.go:172-181 | a step makes a client unreachable iff it overlaps connections of one user |
| Hub.ReachableIffNoOverlap | pkg/sse/server.go:65-75 | on a run all clients stay reachable iff no user ever has two connections |
| Hub.ReconnectGoesDark | pkg/sse/hub.go:172-181 | six steps after which a served client is in no map |
| Hub.ClosedInTheEnd | pkg/sse/hub.go:176-181 | on a run without overlapping connections the channel of every ended handler is closed |
| Hub.NoWriteAfterFailure | pkg/sse/server.go:110-119 | to a client to which an event could not be written no other event is written |
| Hub.NothingAfterStop | pkg/sse/hub.go:195-197 | after the context is cancelled no event is taken and no client added or removed |
| Replay.Store.ListByLastID | pkg/sse/event.go:37-42 | the contract of a store that grows at any time, for any choice of page lengths |
| Replay.OwedAfterPage | pkg/sse/hub.go:316-347 | behind the last event of a page exactly the rest is owed |
| Replay.ResendEvents | pkg/sse/hub.go:311-348 | the loop ends, and tries exactly the events of the type that stand behind the given id in the log at its last read, once each and in order |
| Replay.OwedAtLast | pkg/sse/hub.go:311-348 | for an id the store knew these are all events owed, and no event is among them twice |
| Handover.CopiesAre | pkg/sse/hub.go:202-239 | on every run an event is replayed iff saved before the last read, and delivered live iff the client was in the map before the look-up |
| Handover.LiveInOrder | pkg/sse/hub.go:202-239 | on every run the client gets live events in the order of the look-ups |
| Handover.HandedOver | pkg/sse/server.go:73-97 | when exactly an event pushed meanwhile is handed over once, twice or never; never lost if the map comes first |
| Handover.NeverHandedOver | pkg/sse/hub.go:172-174 | a run that loses the event |
| Handover.TwiceHandedOver | pkg/sse/hub.go:202-239 | a run that hands it over twice |
| MonoRepo.AdaptMonoRepo | cmd/protoc-gen-go-gin/main.go:297-307 | the loop runs the rules in some order; for safe names the result is the reference, whatever the order |
| MonoRepo.SafeIffNoRuleFits | cmd/protoc-gen-go-gin/main.go:298-302 | safe server names are those below which no rule finds its directory |
| MonoRepo.OneMoreRule | cmd/protoc-gen-go-gin/main.go:303-305 | one more replacement extends the simultaneous rewrite by its rule |
| MonoRepo.AnyOrderIsSimultaneous | cmd/protoc-gen-go-gin/main.go:303-305 | any order of any rules is the simultaneous rewrite |
| MonoRepo.ImportMoves | cmd/protoc-gen-go-gin/main.go:297-307 | behind a quote the server name goes in between the module path and each of the three directories, whatever the order and whatever follows |
| MonoRepo.OtherQuoteStays | cmd/protoc-gen-go-gin/main.go:297-307 | behind any other quote nothing changes |
| MonoRepo.OrderIndependentIffSafe | cmd/protoc-gen-go-gin/main.go:297-307 | all orders agree on all data iff the server name is safe |
| MonoRepo.OrderMatters | cmd/protoc-gen-go-gin/main.go:297-307 | for any other name, data and two orders with different results |
| MonoRepo.IdempotentIffSafe | cmd/protoc-gen-go-gin/main.go:297-307 | a second run changes nothing iff the server name is safe |
| MonoRepo.SecondRunGrows | cmd/protoc-gen-go-gin/main.go:297-307 | for any other name, data that a second run changes |
| Wildcard.MatchWildcard | pkg/token/token.go:188-221 | the loop accepts every glob match, and only such if there is room for the last part |
| Wildcard.LeftmostIsEnough | pkg/token/token.go:206-218 | taking the leftmost occurrence of a part never misses a match |
| Wildcard.AcceptsIsGlobWithRoom | pkg/token/token.go:188-221 | glob match iff accepted and room for the last part |
| Wildcard.OverlapAccepted | pkg/token/token.go:195-220 | `a*a` accepts `a` |
| Wildcard.ExactIff | pkg/token/token.go:188-221 | a pattern with any number of stars is matched as it is meant, on every text, iff the last part cannot use again what the part before it has matched, by an overlap or, between two stars, by containing it |
| Wildcard.OneStarExactIff | pkg/token/token.go:188-221 | a pattern with one star is matched as meant on every text iff no end of its first part is a beginning of its last |
| Wildcard.TrailingStarExact | pkg/token/token.go:162-185 | a trailing star is read as a pattern iff it is the only one |
| Wildcard.SlashStarDropsSlash | pkg/token/token.go:162-172 | what a pattern ending in slash-star accepts |
| Wildcard.PlainPath | pkg/token/token.go:162-184 | without a star a path is matched by itself only |
| Wildcard.MatchPathExactIff | pkg/token/token.go:162-221 | which patterns are matched as they are meant for every request, over all branches: none with slash-star at the end, one star at the end, or the condition on the last part |
| JsonMerge.Merge | pkg/jy2struct/jy2struct.go:447-492 | the merged value is no larger than both inputs, on which termination rests |
| JsonMerge.MergeFields | pkg/jy2struct/jy2struct.go:469-490 | the key set is the union |
| JsonMerge.MergeElements | pkg/jy2struct/jy2struct.go:431-445 | the loop over element 0 folds the list |
| JsonMerge.MergeObjects | pkg/jy2struct/jy2struct.go:447-492 | the loop over the second map merges key by key, in any order |
| JsonMerge.FoldByColumn | pkg/jy2struct/jy2struct.go:431-492 | folding objects merges column by column |
| JsonMerge.ObjectsMerge | pkg/jy2struct/jy2struct.go:431-492 | a list of objects yields the union of all keys, each with the merge of its column |
| JsonMerge.MergeKeepsIff | pkg/jy2struct/jy2struct.go:447-458 | a value keeps its type iff the other is null or of its type |
| JsonMerge.MergedType | pkg/jy2struct/jy2struct.go:447-458 | the type of a merged value, by what `reflect.TypeOf` tells apart |
| JsonMerge.FirstScalar | pkg/jy2struct/jy2struct.go:431-464 | scalars of one type and nulls show the first scalar |
| JsonMerge.UniformType | pkg/jy2struct/jy2struct.go:431-445 | a list without conflict of types yields a value of its type |
| JsonMerge.LastConflict | pkg/jy2struct/jy2struct.go:431-458 | in a mixed list only what stands behind the last conflict counts |
| JsonMerge.ListsMerge | pkg/jy2struct/jy2struct.go:431-466 | lists merge into the merge of their concatenation |
| JsonMerge.DownMerged | pkg/jy2struct/jy2struct.go:431-492 | below a key or in a list the merge is the merge of what stands there |
| JsonMerge.MergeShowsIff | pkg/jy2struct/jy2struct.go:431-492 | every type at every path is there after merging iff values that are merged never differ in type, at any depth; then no path is lost |
| JsonMerge.KeysForgotten | pkg/jy2struct/jy2struct.go:431-479 | a list of objects whose merge loses all keys of one of them |
| FieldNames.LintFieldName | pkg/jy2struct/jy2struct.go:299-379 | both fast paths and the scan compute `Lint` |
| FieldNames.ScanInPlace | pkg/jy2struct/jy2struct.go:333-378 | the loop over the shrinking slice computes `Scan` |
| FieldNames.Restyle | pkg/jy2struct/jy2struct.go:366-376 | a word is rewritten where it stands, all else stays |
| FieldNames.DropUnderscores | pkg/jy2struct/jy2struct.go:342-356 | a run of underscores is closed, but for one between digits |
| FieldNames.ScanIsWords | pkg/jy2struct/jy2struct.go:333-378 | the one-pass scan equals splitting into pieces, chunks and camel-case words and styling each |
| FieldNames.LintIsWords | pkg/jy2struct/jy2struct.go:299-379 | the fast paths change nothing in this |
| FieldNames.LintWritten | pkg/jy2struct/jy2struct.go:299-379 | the result is the words one behind the other: an initialism in capitals, a word without capitals with one in front, all else unchanged; a name of capitals and underscores is read in lower case |
| FieldNames.CamelBreaks | pkg/jy2struct/jy2struct.go:357-360 | the words of a chunk are the chunk, broken exactly between a lower-case letter and anything else |
| FieldNames.LintKeeps | pkg/jy2struct/jy2struct.go:299-379 | all other characters stay, up to case and in order; underscores stay in front or between digits |
| FieldNames.FmtFieldName | pkg/jy2struct/jy2struct.go:269-296 | the loops compute `Fmt` |
| FieldNames.SpellContent | pkg/jy2struct/jy2struct.go:420-429 | a digit in front is spelt out |
| FieldNames.FmtFieldNameExported | pkg/jy2struct/jy2struct.go:269-296 | the result is an exported identifier with the letters and digits of the key, or `_` iff there are none |
| FieldNames.FmtOfLint | pkg/jy2struct/jy2struct.go:269-296 | the linted name with underscores for what is no letter or digit, cut behind the last letter or digit |
| FieldNames.FooID | pkg/jy2struct/jy2struct.go:263-268 | the documented example: `foo_id` becomes `FooID` |
| GoMerge.CodeAst.ParseStructMethods | pkg/goast/ast.go:643-668 | the map has the methods of each struct in order |
| GoMerge.CodeAst.MergeStructMethodsCode | pkg/goast/merge.go:503-537 | in any order of structs, new methods end up behind the last one of their struct |
| GoMerge.CodeAst.CoverFuncCode | pkg/goast/merge.go:539-574 | the text replacements put in the bodies `CoverAll` says, with the generated comment where there was none |
| GoMerge.CodeAst.AppendNonExistedCode | pkg/goast/merge.go:577-648 | what is appended |
| GoMerge.CodeAst.MergeCode | pkg/goast/merge.go:749-799 | the passes together compute `Merge` |
| GoMerge.SameName | pkg/goast/ast.go:68-70 | the joined name tells functions and methods apart |
| GoMerge.WovenBodies | pkg/goast/merge.go:503-537 | the first pass adds exactly the missing methods of structs that have some |
| GoMerge.MergedOnce | pkg/goast/merge.go:503-648 | every function of either side is there once, with the right body and comment, unless its name clashes |
| GoMerge.CoveredText | pkg/goast/merge.go:539-574 | a function of both sides has the generated text below its own comment, or the generated one if it has none; its own body if not covered, or if its own name is to be ignored |
| GoMerge.OthersStay | pkg/goast/merge.go:539-574 | what is no function, and every `init` and `_`, is still there unchanged |
| GoMerge.BehindTheirStruct | pkg/goast/merge.go:503-537 | new methods of a struct stand directly behind its last method, in the order of generation, and nowhere else |
| GoMerge.MergedInOrder | pkg/goast/merge.go:577-648 | the source keeps its order; what is appended comes behind it in the order of generation |
| GoMerge.MainIsLost | pkg/goast/merge.go:577-639 | a generated `main` is dropped from a package `main` |
| GoMerge.SpecialKept | pkg/goast/merge.go:625-632 | the text of every generated `init` and `_` is there, if only in a comment |
| GoMerge.MergedWellformed | pkg/goast/merge.go:749-799 | the result declares no function twice |
| GoMerge.MergeAgainIff | pkg/goast/merge.go:749-799 | merging the same code again changes nothing iff no method is lost by a clash whose struct gets another one |
| GoMerge.GroupRevives | pkg/goast/merge.go:577-639 | a group of types and two methods for which the second merge adds what the first one lost |
| LazyGroup.Group.LookupOrBuild | pkg/container/group/group.go:36-45 | the slow path builds only if the key is still missing |
| LazyGroup.Group.Get | pkg/container/group/group.go:27-46 | without interference the two looks are one operation |
| LazyGroup.Group.Reset | pkg/container/group/group.go:49-57 | new constructor, no objects; nil panics first |
| LazyGroup.Group.Clear | pkg/container/group/group.go:60-64 | all objects are gone |
| LazyGroup.Linearizable | pkg/container/group/group.go:27-64 | every interleaving returns what some sequence of whole operations returns |
| LazyGroup.OnceBetweenClears | pkg/container/group/group.go:27-46 | between clears all `Get`s of a key return one object and only the first builds |
| LazyGroup.NeverOlderThanReset | pkg/container/group/group.go:49-57 | after a finished `Reset` no object of an older constructor is returned |
| LazyGroup.CachedIsCurrent | pkg/container/group/group.go:49-57 | unless a `Reset` is halfway, all cached objects are by the current constructor, and none is shared |
| LazyGroup.StaleGet | pkg/container/group/group.go:49-57 | a run where a `Get` in between returns an old object |
| LazyGroup.StaleIffHalfReset | pkg/container/group/group.go:27-57 | on any run a `Get` returns an object of another constructor than the current one iff a `Reset` that is halfway has replaced it since the first `Get` |
| LazyGroup.SwappedUntilWiped | pkg/container/group/group.go:49-57 | the thread that set the constructor is still between its two critical sections as long as nothing was cleared |
| LogGroups.KvBuffer.AddAttr | pkg/otelslog/handler.go:472-495 | inlines, drops or converts one attribute |
| LogGroups.KvBuffer.AddAttrs | pkg/otelslog/handler.go:457-462 | appends all that is kept |
| LogGroups.Group.NextNonEmpty | pkg/otelslog/handler.go:376-381 | the first group of the list that has attributes |
| LogGroups.Group.Render | pkg/otelslog/handler.go:392-404 | the loop of `KeyValue` wraps from the innermost group out |
| LogGroups.Group.Clone | pkg/otelslog/handler.go:407-414 | own buffer, shared tail |
| LogGroups.Handler.WithAttrs | pkg/otelslog/handler.go:298-312 | the derived handler; nothing that existed is changed |
| LogGroups.Handler.WithGroup | pkg/otelslog/handler.go:316-320 | the same for a new innermost group |
| LogGroups.Handler.ConvertRecord | pkg/otelslog/handler.go:257-281 | the attributes of an emitted record |
| LogGroups.HandlerReading | pkg/otelslog/handler.go:238-462 | the innermost-first list renders the outermost-first reading of any chain |
| LogGroups.RecordShows | pkg/otelslog/handler.go:238-524 | every value logged through any chain is in the record, in the order of logging, under the names of its groups and its own keys, and nothing else is |
| LogGroups.ScalarsShown | pkg/otelslog/handler.go:238-524 | the scalars of a record are those of the chain and then its own, in order |
| LogGroups.AsDocumentedIff | pkg/otelslog/handler.go:328-371 | this is the nesting of the source's comment iff no group is skipped and the leaf is not hollow |
| LogGroups.CommentExample | pkg/otelslog/handler.go:328-371 | the comment's own example is rendered without its outer groups |
| LogGroups.EarlierRecordKeptIff | pkg/otelslog/handler.go:392-454 | on memory, both records of a handler are rendered as `ConvertRecord` says; the first still reads the same after the second iff in every group where both find room they put the same values |
| LogGroups.RecordsHarmlessIff | pkg/otelslog/handler.go:392-454 | for two records with attributes: they keep the same ones, or no outer group has room and the innermost one has none or they agree |
| LogGroups.EarlierRecordChanges | pkg/otelslog/handler.go:392-454 | a chain of three calls and two records: the first then reads as the second |
| BlockCipher.Ecb.CryptBlocks | pkg/gocrypto/wcipher/ecb.go:18-44 | the loop over slices maps the block function over all blocks, also in place, and leaves the rest of a longer destination; panics iff not full blocks |
| BlockCipher.FullIff | pkg/gocrypto/wcipher/ecb.go:19-26 | full blocks, as the loop counts them, are the multiples of the block size |
| BlockCipher.Cipher.Encrypt | pkg/gocrypto/wcipher/cipher.go:30-35 | padding, then the blocks |
| BlockCipher.Cipher.Decrypt | pkg/gocrypto/wcipher/cipher.go:38-43 | the blocks, then the padding off, panics included |
| BlockCipher.CiphertextLength | pkg/gocrypto/wcipher/padding.go:23-27 | the least multiple of the block size beyond the plaintext |
| BlockCipher.BlocksRoundTrip | pkg/gocrypto/wcipher/ecb.go:18-44 | decrypting all blocks undoes encrypting them |
| BlockCipher.BlockAt | pkg/gocrypto/wcipher/ecb.go:18-44 | every block of the result is the cipher applied to that block of the text |
| BlockCipher.PaddedText | pkg/gocrypto/wcipher/padding.go:23-27 | padding keeps the text, fills up to full blocks by at most one, and every byte of it is its length, where a byte holds that |
| BlockCipher.PadUnPad | pkg/gocrypto/wcipher/padding.go:23-34 | the padding comes off iff its length fits a byte |
| BlockCipher.RoundTripIff | pkg/gocrypto/wcipher/cipher.go:30-43 | decryption recovers the plaintext iff the padding is at most 255 long |
| BlockCipher.BlockSizeIff | pkg/gocrypto/wcipher/cipher.go:30-43 | every plaintext round-trips iff the block size is at most 255 |
| BlockCipher.UnPadAccepts | pkg/gocrypto/wcipher/padding.go:30-34 | which texts un-pad to a given one: only the last byte is looked at |
| ErrorText.Registry.NewError | pkg/errcode/http_error.go:29-41 | a code is registered once; a second time panics |
| ErrorText.PrintedText | pkg/errcode/http_error.go:45-71 | the texts of `Err` and `ErrToHTTP`, replaced messages and details included |
| ErrorText.AtoiItoa | pkg/errcode/http_error.go:182-187 | printed codes parse |
| ErrorText.ParsePrinted | pkg/errcode/http_error.go:172-200 | code, message part and label are found in any printed text |
| ErrorText.ErrCode | pkg/errcode/http_error.go:45-55 | `GetErrorCode` of `Err` is the code, or the status iff the text spells the label |
| ErrorText.ErrToHTTPCode | pkg/errcode/http_error.go:61-71 | `GetErrorCode` of `ErrToHTTP` is the status |
| ErrorText.Unregistered | pkg/errcode/http_error.go:172-200 | a printed code that is not registered is read as -1, an unknown error |
| ErrorText.BareCode | pkg/errcode/http_error.go:186-197 | a code without a message is the registered error |
| ErrorText.NoDigitNoCode | pkg/errcode/http_error.go:172-185 | text without a digit is read as -1 |
| ErrorText.DetailsSpellLabel | pkg/errcode/http_error.go:51-54 | two details that spell the label together |
| ErrorText.ErrMessageIff | pkg/errcode/http_error.go:172-200 | the parsed message is the message of `Err` iff there are no details and it does not contain the separator |
| ErrorText.LabelStays | pkg/errcode/http_error.go:172-200 | of `ErrToHTTP` the label stays in the message; but for it the same condition |
| ErrorText.StatusTextIff | pkg/errcode/response.go:244-257 | a status text gives code and message back iff the message has neither separator |
| ErrorText.StatusWithout | pkg/errcode/response.go:244-257 | a status text without a message comes back whole, with the code -1 |
| AlarmWindow.StatGroup.Check | pkg/stat/alarm.go:54-79 | one call on the array of samples |
| AlarmWindow.WindowIsLatest | pkg/stat/alarm.go:54-66 | the window holds the last three samples, newest first |
| AlarmWindow.KeptTime | pkg/stat/alarm.go:68-77 | the kept time is that of the latest alarm |
| AlarmWindow.FiresIff | pkg/stat/alarm.go:54-111 | when exactly an alarm is raised, on any run |
| AlarmWindow.HighIff | pkg/stat/alarm.go:82-111 | when usage is too high, on the sums of the three samples instead of averages |
| AlarmWindow.AlarmsApart | pkg/stat/alarm.go:68-77 | two alarms are at least the interval apart |

## Left out

- Hub: the goroutines are steps on values, not classes; a timer may fire at any step. `Hub.Close`, `PushHeartBeat` and the validation in `Push` are not modelled; saving and replaying are in `Handover`, for one client that stays connected and without timeouts.
- EventStream: `Disconnect` from outside, the HTTP request, and the counter of `retryStrategy`, which has only easy properties; JSON is a set of valid texts, and a writer takes any beginning of what it is given. Text is a sequence of characters, not of bytes, so a cut falls between characters.
- EventStandard: the ids of delivered events are not compared with the standard; a byte order mark and the field `retry` are not modelled.
- Replay: what a store does with an id it does not know is a choice of the model: it starts from the beginning. Ids of stored events are different.
- UniqueCode: the Sonyflake generator, and the machine hash behind the salt, which is any number here.
- Wildcard: what the skipped paths protect; tokens and signing are library code.
- JsonMerge: keys are strings in both kinds of object; values are shared and copied freely, while the source writes into the maps and slices it was given; the text of struct types, tags and the guess of integers from floats.
- FieldNames: names outside ASCII, where `unicode.IsDigit` and `unicode.ToUpper` know more.
- GoMerge: source text. A declaration stands for its text, so a replacement finds it if it is there, and the error for text that occurs twice cannot arise; imports, constants, variables and the merging of types are not modelled, nor is parsing or formatting.
- LazyGroup: constructors that call the container themselves.
- LogGroups: time, severity, source and context of a record; the kinds of scalar values. Buffers are sequences in the classes; what sharing their arrays does is in `EarlierRecordKeptIff`, where memory is a value and how much room a new array has is any function.
- BlockCipher: the ciphers themselves and the modes CBC, CFB, CTR and OFB of the Go library; that `append` may write the padding behind the caller's plaintext.
- ErrorText: the tables from codes to statuses, which are a parameter; a nil error; gRPC status objects, of which only the text is modelled.
- AlarmWindow: rounding of floating-point averages, which are real numbers here; the setters of thresholds.
- Wrappers around databases, caches, brokers and service registries, code generation commands, and HTTP or gRPC plumbing, whose behaviour is that of libraries.
