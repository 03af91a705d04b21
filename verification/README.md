# The pool's hard logic, modelled and proved in Dafny

The pool is a service that routes requests of several clients to several upstream accounts. This
project models the places where its own code decides what happens, and proves what holds there for
every input, every run or every reachable state. `dafny verify dfyconfig.toml` checks all of it.

## The parts

* **GoSort** is Go's `sort.SliceStable` as the pool ports it: insertion sort over blocks of twenty,
  then symmetric merges with an in-place rotation, on an array. A comparison is told the number of its
  call, so inconsistent and changing rules are covered. Under one strict weak order the result is the
  stable sort, which is proved to be the only ordered arrangement that keeps ties in place. Under any
  rule at all the sort terminates inside its bounds with a permutation.
* **Json**, **JsonReader**, **GoJson** and **CodexPrinter** are the JSON values, a reader written from
  RFC 8259 (sections 2 to 7), and the two families of printers. Everything printed reads back;
  **PrintedOrder** says in which order the members of every object are written.
* **RequestGate**, **RequestCheck** and **RequestCompletion** are the request gate, the normalization
  and the completion: the specification, the loops and edits as the pool runs them, and the text sent.
  **GateAccepts** says in the words of the two vocabularies which requests pass, **CompletedContent**
  what a completed request says next to what the client wrote, **CompletedOrder** in which order.
* **Login**, **LoginRuns** and **LoginPool** are sign-in jobs and the routing gate they keep in
  config.json next to runtime.json. Runs interleave starts, exits of the sign-in program, finalization,
  metadata refreshes, releases, cancellations, failed writes, crashes and restarts. **LoginOutcomes**
  says what each step comes to exactly, and that an undisturbed sign-in completes.
* **TokenRefresh** and **CredentialStore** are the refresh of one account's rotating tokens, with callers
  that may be dropped at any await, a detached exchange, and sign-ins that write auth.json without the
  permit. **TokenOutcomes** says exactly when an exchange is sent, and what one costs the others.
* **Eligibility** is the choice of one routable slot per upstream identity, and the quota windows.
* **KeyLogin**, **KeyLoginRequest** and **AnsweredItems** are the completion of API-key requests by edits
  of their text, from the request's text to the text sent, the call log, and what an edited item reads as.
  They rest on **JsonText** and **JsonEdits**: where the parts of a JSON text stand, that a value is read
  from its own stretch of text and nothing else, and what is read once another value stands in its place.
  **AnsweredExactly** says which answers are replaced, and that every other item stays; **KeyLoginReads**
  what the whole completed request reads as.
* **ClientLimit**, **Conversations**, **CacheWindow**, **WsHeaders**, **Pbkdf2** and **LogFile** are the
  client limiter, the table of conversation identifiers, the cache-window baselines, the rotation of
  forwarded WebSocket headers, password hashing and the rotating log.
* **Basics** holds what all of them use.

Code that changes things step by step is modelled by methods and classes; each is proved against a
function or a state machine step, and the results are proved about those.

## Results that differ from what one would expect

* A cancellation that arrives after its sign-in last looked for one leaves the job "cancelling" for
  good: `finish_login_job` writes nothing but "cancelled" then (upstream/src/pool/login.rs:628). The job
  counts as active, so no sign-in to any slot can start and no closed gate can open until a restart, and
  trying the job's own slot again closes its gate too. `LateCancelLeavesJobActive` says exactly when,
  `LateCancelRun` gives a run, `StuckUntilRestart` and `StuckStartClosesGate` the consequences. A home
  directory that cannot be made is a second way there: that path fails the job without a look for a
  cancellation (upstream/src/pool/login.rs:668-677, `NoDirectoryRun`).
* The comment on `persist` says a new sign-in is never overwritten. One that lands between the read and
  the write is (`LoginAfterReadIsLost`); `WriteReplacesSpentTokens` says that this is the only case.
* A /v1 request the gate passes is not always completed into one the native gate passes. An item whose
  `type` is not a string, and a message whose `content` is one `input_file` object, pass the first and
  fail the second. `CompletionAccepted` shows that these are the only two.
* Normalizing twice differs from normalizing once exactly when a message's `content` is one bare object
  of type `text` or `image_url` (`NormalizeSettles`).
* The limiter reads the clock before it takes its lock. In order of their times, calls never exceed the
  limit of a minute (`WindowHoldsAtMost`). In any order they stay within it exactly where the limit is at
  most one start (`OrderMattersExactly`); for every other limit one call counted late, by as little as a
  nanosecond, can make one start more (`LateCallExceedsWindow`).
* The answer of an API-key item is replaced at the first place of the item's text that has it. The item's
  own output is the native answer then exactly when that place is its own `output` member
  (`AnswerEditReads`). A `function_call_output` in which an inner object has such a member first is
  edited there, and keeps its old output (`NestedReads`, `NestedKeepsItsOutput`).
* A reply that is lost after upstream replaced a token, and a write that fails, make the next exchange
  send the replaced token again, in every run, unless a sign-in comes first (`LostReplyResends`,
  `FailedWriteResends`).
* With two to four forwarded names the WebSocket library writes them backwards (`OrderRestoredExactly`).

## Assumptions

Each file write is atomic: it replaces the file or fails and leaves it. Upstream identifiers named by
metadata are not blank. Identifiers drawn and tokens issued are new. SHA-256 is a function of the
concatenated bytes with 32 bytes of output, and digests of different tokens or items differ. Time is
fixed while one routing decision is made, except where `ChooseRepresentative` says otherwise. Strings
are sequences of Unicode characters. JSON objects are maps, as in serde_json without `preserve_order`.

## Model

| member | source | states |
|---|---|---|
| GoSort.SwapRange | upstream/src/pool/gosort.rs:126-130 | two blocks of equal length change places and nothing else moves |
| GoSort.Rotate | upstream/src/pool/gosort.rs:111-124 | the two adjacent blocks are exchanged exactly; everything outside stays |
| GoSort.InsertionSort | upstream/src/pool/gosort.rs:42-50 | one block becomes its stable sort under a consistent rule, a permutation under any, nothing outside moves |
| GoSort.MergeOneLeft | upstream/src/pool/gosort.rs:53-69 | a run of one element on the left is merged stably into the sorted run behind it |
| GoSort.MergeOneRight | upstream/src/pool/gosort.rs:70-86 | a run of one element on the right is merged stably into the sorted run before it |
| GoSort.SymMerge | upstream/src/pool/gosort.rs:52-109 | two sorted runs become the stable sort of both; any rule gives a permutation inside the range |
| GoSort.SortBlocks | upstream/src/pool/gosort.rs:16-22 | every block of twenty, and what is left, becomes its stable sort |
| GoSort.PassEnd | upstream/src/pool/gosort.rs:24-36 | one pass of merges leaves every block of twice the size the stable sort of its elements |
| GoSort.SliceStable | upstream/src/pool/gosort.rs:13-38 | the whole slice becomes its stable sort; for any rule whatsoever a permutation, with all indices in bounds and an end |
| GoSort.StableSortIsStable | upstream/src/pool/gosort.rs:1-12 | the specification is ordered, a permutation, and keeps every class of ties in order |
| GoSort.StableSortUnique | upstream/src/pool/gosort.rs:1-12 | two ordered arrangements with the same ties in the same order are the same |
| GoSort.SortPieces | upstream/src/pool/gosort.rs:30-37 | sorting two neighbouring pieces first does not change the stable sort of both |
| GoSort.SplitSort | upstream/src/pool/gosort.rs:87-108 | after the inner blocks of two sorted runs change places, the halves sort on their own |
| GoSort.MergeSplit | upstream/src/pool/gosort.rs:87-108 | the symmetric cut found by the binary search leaves two pairs of sorted runs whose merges make the whole |
| Json.LeqTotal | upstream/src/pool/gojson.rs:36-52 | the order of keys is total, and only equal keys tie |
| Json.LeqTransitive | upstream/src/pool/gojson.rs:36-52 | the order of keys is transitive |
| Json.SortedKeys | upstream/src/pool/gojson.rs:36-52 | the keys of an object stand in order, each once |
| Json.SerdeTreeValue | upstream/src/pool/codex_request.rs:1319-1323 | serde_json's layout writes the value down, whatever its depth |
| Json.MembersOf | upstream/src/pool/codex_request.rs:1325-1363 | members written once each, with an object's values, are that object |
| JsonReader.ReadTree | upstream/src/pool/gojson.rs:15-55 | a reader that follows RFC 8259 gets the value of any printed layout back, whatever follows that a number would not swallow |
| JsonReader.ReadEscaped | upstream/src/pool/gojson.rs:83-110 | the escapes of a printed string read as its characters, with and without the HTML escapes |
| JsonReader.ReadDocumentText | upstream/src/pool/gojson.rs:15-55 | a printed document reads back as the value it was printed from |
| GoJson.MarshalRoundTrip | upstream/src/pool/gojson.rs:15-55 | the reader recovers v from marshal(v), for every v |
| GoJson.MarshalInjective | upstream/src/pool/gojson.rs:15-55 | two values marshal alike exactly when they are equal |
| GoJson.MarshalSafe | upstream/src/pool/gojson.rs:83-110 | marshalled text holds no raw `<`, `>`, `&`, control character, U+2028 or U+2029 |
| GoJson.WriteString | upstream/src/pool/gojson.rs:83-110 | the loop appends the escaped text between quotation marks |
| GoJson.SortKeys | upstream/src/pool/gojson.rs:36-52 | the keys are put in the one ascending order, however they came |
| GoJson.WriteValue | upstream/src/pool/gojson.rs:21-55 | the recursive printer appends exactly the sorted layout of the value |
| GoJson.Marshal | upstream/src/pool/gojson.rs:15-19 | the output vector holds the text the round trip is about |
| CodexPrinter.KeyOrderComplete | upstream/src/pool/codex_request.rs:1325-1363 | every key of the object is written, and written once |
| CodexPrinter.KeyOrderPositions | upstream/src/pool/codex_request.rs:1325-1363 | listed keys come first in the given order, the others after them in serde's |
| CodexPrinter.OrderedTreeValue | upstream/src/pool/codex_request.rs:1333-1363 | reordering at any depth leaves the value as it was |
| CodexPrinter.PrintersReadBack | upstream/src/pool/codex_request.rs:1406-1549 | what is written for items, tools, schemas and text controls reads back as the value given |
| PrintedOrder.PrintedInOrder | upstream/src/pool/codex_request.rs:1319-1549 | in what is written for items, tools, schemas and text controls the members of every object stand in Codex's order at every depth, and in serde_json's where Codex has none |
| CodexPrinter.WriteOrderedWith | upstream/src/pool/codex_request.rs:1333-1363 | the loop appends every member once in the ordered layout |
| CodexPrinter.WriteSchema | upstream/src/pool/codex_request.rs:1495-1533 | schemas are appended in their order at every depth |
| CodexPrinter.WriteSchemaMap | upstream/src/pool/codex_request.rs:1501-1515 | the named schemas of `properties`, `$defs` and `definitions` are appended in serde's order, each in schema order |
| CodexPrinter.WriteElements | upstream/src/pool/codex_request.rs:1516-1528 | the schemas of a list, or the parts of a message, are appended in place, each in its order |
| CodexPrinter.WriteItem | upstream/src/pool/codex_request.rs:1406-1449 | an item is appended in the order of its type, the parts of a message in theirs |
| CodexPrinter.WriteTool | upstream/src/pool/codex_request.rs:1453-1473 | a tool is appended in its order, its parameters in the schema's |
| CodexPrinter.WriteTextControls | upstream/src/pool/codex_request.rs:1537-1549 | text controls and their format are appended in their orders |
| RequestGate.AllStep | upstream/src/pool/codex_request.rs:428-479 | the first refusal ends the whole check; until then unknown names add up |
| RequestGate.ResponsesPass | upstream/src/pool/codex_request.rs:428-479 | a request passes exactly when every member does and nothing required is missing |
| RequestGate.ItemAnywhere | upstream/src/pool/codex_request.rs:599-673 | whether an item passes does not depend on its place |
| RequestGate.ItemCompleted | upstream/src/pool/codex_request.rs:971-1024 | an item that passes on /v1 passes natively once normalized exactly when its type is a string if present and its content is no `input_file` object |
| RequestGate.FieldCompleted | upstream/src/pool/codex_request.rs:882-956 | every other member of a completed request passes natively |
| RequestGate.CompletionAccepted | upstream/src/pool/codex_request.rs:428-1220 | a request /v1 passes is completed into one the native endpoint passes, with every required field, exactly when all its items are of that shape |
| RequestGate.CompletionRefused | upstream/src/pool/codex_request.rs:599-1024 | two concrete requests that pass on /v1 and are refused natively once completed |
| RequestGate.NormalizeSettles | upstream/src/pool/codex_request.rs:882-1024 | normalizing again changes nothing exactly when no message's content is a bare `text` or `image_url` object |
| GateAccepts.PassesExactly | upstream/src/pool/codex_request.rs:428-673 | a request passes exactly when every member of it is of the vocabulary of its endpoint, down to tools, includes, formats, options, items and their parts, and natively nothing required is missing |
| GateAccepts.FirstItemRefused | upstream/src/pool/codex_request.rs:599-673 | a refusal of an item names the first item that is not accepted |
| GateAccepts.ReportedExactly | upstream/src/pool/codex_request.rs:428-673 | what is reported of a request that passes: every name in it that Codex's vocabulary has not, and no other |
| RequestCheck.CheckOneItem | upstream/src/pool/codex_request.rs:599-673 | the check of one item pushes the names, or returns the refusal, the grammar gives |
| RequestCheck.CheckOneField | upstream/src/pool/codex_request.rs:481-597 | the check of one member, with its loops over items, tools, includes and options, reports what the grammar gives |
| RequestCheck.CheckRequest | upstream/src/pool/codex_request.rs:428-479 | the loops over members and required fields return the names passed, or the first refusal in member order |
| RequestCheck.RewriteItem | upstream/src/pool/codex_request.rs:971-997 | the edits of one item make the normalized item |
| RequestCheck.RewriteTool | upstream/src/pool/codex_request.rs:905-924 | the edits of one tool make the normalized tool |
| RequestCheck.RemoveIdentity | upstream/src/pool/codex_request.rs:884-890 | the identity fields are taken out and listed in their order |
| RequestCheck.EditPayload | upstream/src/pool/codex_request.rs:903-949 | the four member edits, one after the other, on one copy of the payload |
| RequestCheck.NormalizeRequest | upstream/src/pool/codex_request.rs:882-956 | the step-by-step edits give the normalized request |
| RequestCompletion.Shuffle | upstream/src/pool/codex_request.rs:1303-1309 | the swaps in place give the drawn order |
| RequestCompletion.ShuffleKeepsPairs | upstream/src/pool/codex_request.rs:1303-1309 | whatever is drawn, the same entries stand there, each name once |
| RequestCompletion.EveryOrderDrawn | upstream/src/pool/codex_request.rs:1303-1309 | every order of the entries comes out of some draw |
| RequestCompletion.MetadataValue | upstream/src/pool/codex_request.rs:1172-1196 | client metadata is the same object in every drawn order |
| RequestCompletion.BodyMembersInOrder | upstream/src/pool/codex_request.rs:1064-1197 | the members stand in Codex's order, present exactly when they have a value |
| CompletedOrder.CompletedInOrder | upstream/src/pool/codex_request.rs:1064-1197 | the members of a completed request stand in the order of the wire, and what each of them holds in its own |
| RequestCompletion.WriteItems | upstream/src/pool/codex_request.rs:1081-1117 | the instructions lead the items, every item in its layout and with its identifier |
| RequestCompletion.WriteMetadata | upstream/src/pool/codex_request.rs:1172-1196 | the shuffled entries are appended as one object |
| RequestCompletion.Complete | upstream/src/pool/codex_request.rs:1046-1220 | the bytes written read back as the completed request |
| RequestCompletion.CompletedRequestPasses | upstream/src/pool/codex_request.rs:428-1220 | what upstream reads from those bytes passes the native gate, or the request had one of the two shapes |
| CompletedContent.CompletedRequestSays | upstream/src/pool/codex_request.rs:882-1220 | what is read of the bytes sent: the client's items one for one behind its instructions, each message with its role (a system message as the developer's) and its text, images and other parts, its tools, reasoning, text controls and options as far as they go out, and for the rest the pool's own values |
| LoginPool.Pool.SaveBoth | upstream/src/pool/app.rs:729-738 | config.json, then runtime.json; the first failure ends it |
| LoginPool.Pool.SaveCompletedVerification | upstream/src/pool/app.rs:745-754 | runtime.json, then config.json; the first failure ends it |
| LoginPool.Pool.Start | upstream/src/pool/login.rs:454-567 | a sign-in begins only when no job is active; an active one is handed out for its own slot only, and its gate is closed again |
| LoginPool.Pool.CancelJob | upstream/src/pool/login.rs:576-597 | a job that has not ended becomes "cancelling" |
| LoginPool.Pool.UpdateJob | upstream/src/pool/login.rs:361-393 | a prompt changes only a job that neither ended nor is being cancelled |
| LoginPool.Pool.FinishJob | upstream/src/pool/login.rs:616-653 | an ended job gets its outcome, unless a cancellation was requested and the outcome is another |
| LoginPool.Pool.ApplyCompletedDeviceAuth | upstream/src/pool/login.rs:250-308 | says whether history was reset, and gives the slot the identity read |
| LoginPool.Pool.FinalizeJob | upstream/src/pool/login.rs:713-780 | the locked part of finalization, with its save, as the state machine has it |
| LoginPool.Pool.ReleaseGate | upstream/src/pool/login.rs:829-886 | the last look at the identity, the gate opened and saved, or closed again |
| LoginRuns.OpenedOk | upstream/src/pool/login.rs:829-886 | a gate that opens keeps history only if it was signed in, and opens, as the identity expected |
| LoginRuns.StepKeeps | upstream/src/pool/login.rs:454-904 | every step, with any failed write, keeps the invariant |
| LoginRuns.HistoryStaysWithIdentity | upstream/src/pool/login.rs:711-886 | in every run, history on disk outlives an opening of the gate on disk only if the credential read and the final identity are the one expected |
| LoginRuns.GateClosedDuringSignIn | upstream/src/pool/login.rs:496-529 | while the sign-in program runs, and until release, the gate is closed in memory and on disk, for the expected identity |
| LoginRuns.ExpectedStays | upstream/src/pool/login.rs:496-518 | no step, no failed write and no crash changes whom a closed gate on disk was closed for |
| LoginRuns.OneSignIn | upstream/src/pool/login.rs:469-495 | in every run at most one job is active in the whole pool, and at most one sign-in runs, that of the active job |
| LoginRuns.PublicFinalizeKeepsIdentity | upstream/src/pool/login.rs:733-745 | in every run, finalizing a public repair clears no history and opens no gate |
| LoginRuns.PublicReleaseKeepsIdentity | upstream/src/pool/login.rs:829-886 | in every run, releasing one clears no history, and opens the gate only for the identity expected |
| LoginRuns.LateCancelLeavesJobActive | upstream/src/pool/login.rs:616-653 | in every run, an ended job stays active exactly when it is being cancelled and its outcome is not "cancelled" |
| LoginRuns.LateCancelRun | upstream/src/pool/login.rs:818-905 | a run that ends with an open gate, a job "cancelling" and nothing left to end it |
| LoginRuns.NoDirectoryRun | upstream/src/pool/login.rs:668-677 | a run that ends so when the home directory cannot be made for a job already being cancelled |
| LoginRuns.StuckUntilRestart | upstream/src/pool/login.rs:469-495 | after that no sign-in to any slot runs and no closed gate opens, until a restart |
| LoginRuns.StuckStartClosesGate | upstream/src/pool/login.rs:475-494 | trying that job's open slot again closes its gate in memory and on disk, and it stays closed until a restart |
| LoginOutcomes.StartExactly | upstream/src/pool/login.rs:454-560 | in every run, what a start closes, for whom, and what task it begins |
| LoginOutcomes.AdoptExactly | upstream/src/pool/login.rs:469-495 | a start that finds a job active begins no other, and closes the gate of exactly that job's open slot |
| LoginOutcomes.FinalizeExactly | upstream/src/pool/login.rs:711-781 | in every run, finalizing clears the slot's history exactly where another identity was to be reproduced; a public repair that finds another changes nothing |
| LoginOutcomes.ReleaseExactly | upstream/src/pool/login.rs:829-886 | in every run, a release opens the gate in memory and on disk exactly where its writes succeed, and clears the history exactly where the identity is another one and it was not cleared before |
| LoginOutcomes.SignInCompletes | upstream/src/pool/login.rs:454-905 | an undisturbed sign-in completes, with its history kept exactly where the slot had no identity or has the one expected again |
| LoginOutcomes.FinishExactly | upstream/src/pool/login.rs:616-653 | the status a job ends with |
| LoginOutcomes.StatusExactly | upstream/src/pool/login.rs:563-615 | a prompt or a cancellation changes exactly a job that neither ended nor is being cancelled |
| LoginOutcomes.GoesWrongExactly | upstream/src/pool/login.rs:655-828 | a failing step, or one that finds a cancellation, ends the task with that outcome and changes no slot |
| LoginOutcomes.RecordExactly | upstream/src/pool/app.rs:1039-1052 | a request is recorded in a slot's history exactly while its gate is open and nobody signs in to it |
| TokenRefresh.StepKeeps | upstream/src/pool/credentials.rs:575-749 | every step keeps the permit with one caller or task, and what was read apart from what was signed in |
| TokenRefresh.StepRetires | upstream/src/pool/credentials.rs:391-446 | every step whose reply arrives and whose write succeeds keeps replaced tokens out of use |
| TokenRefresh.ReplacedTokensAreNotSent | upstream/src/pool/credentials.rs:632-749 | in every such run, no exchange sends a refresh token upstream replaced, nor is started again for an access token it replaced |
| TokenRefresh.SettlingCountsTasks | upstream/src/pool/credentials.rs:446-462 | in every run, faults included, the counter is the number of running exchanges, at most one |
| TokenRefresh.LoginBeforeReadStays | upstream/src/pool/credentials.rs:408-430 | a sign-in written before the result is read survives it |
| TokenRefresh.WriteReplacesSpentTokens | upstream/src/pool/credentials.rs:418-445 | in every run a write replaces the tokens spent exactly when no sign-in came between its read and itself |
| TokenRefresh.LoginAfterReadIsLost | upstream/src/pool/credentials.rs:418-445 | a run in which a sign-in is overwritten |
| TokenRefresh.LostReplyResends | upstream/src/pool/credentials.rs:344-376 | in every run, a lost reply with the spent tokens still on file makes the next exchange before a sign-in send the replaced token again |
| TokenRefresh.FailedWriteResends | upstream/src/pool/credentials.rs:441-444 | in every run, a failed write with no sign-in since the read does the same |
| TokenRefresh.LostReplyRun | upstream/src/pool/credentials.rs:344-376 | a run with a lost reply and the token sent twice |
| TokenRefresh.FailedWriteRun | upstream/src/pool/credentials.rs:441-444 | a run with a failed write and the token sent twice |
| TokenRefresh.RefusedTokensAreNotSent | upstream/src/pool/credentials.rs:674-680 | while tokens refused for good stay on file and the record stays, nobody sends them |
| TokenOutcomes.DecideExactly | upstream/src/pool/credentials.rs:658-692 | the same of the machine's step: who goes on to spend what is on file, and who leaves |
| TokenOutcomes.RejectedTokenIsRefreshed | upstream/src/pool/credentials.rs:737-749 | a caller whose rejected token is on file sends that exchange, whether it is about to expire or not |
| TokenOutcomes.OneExchangeForAll | upstream/src/pool/credentials.rs:632-749 | in every run, however many callers had the token on file rejected, one exchange is sent, and all leave with the tokens it brought |
| TokenOutcomes.RefusedForGood | upstream/src/pool/credentials.rs:391-406 | in every run, once upstream refused for good the tokens on file, nobody sends them while they and the note stay |
| TokenOutcomes.DropExactly | upstream/src/pool/credentials.rs:575-631 | a caller that is dropped is gone, and frees the permit exactly where it had it |
| CredentialStore.Credential.RefusedReason | upstream/src/pool/credentials.rs:153-163 | the refusal of these tokens; a record of others is dropped |
| CredentialStore.Credential.CompareRejected | upstream/src/pool/credentials.rs:737-749 | a caller whose rejected token is no longer on file leaves with what is |
| CredentialStore.Credential.DecideRefresh | upstream/src/pool/credentials.rs:658-692 | what is on file is spent if and only if there is a refresh token, these tokens were not refused for good, and they are about to expire or were rejected |
| CredentialStore.Credential.SpawnExchange | upstream/src/pool/credentials.rs:700-721 | the permit and the count move into the exchange |
| CredentialStore.Credential.ExchangeFailed | upstream/src/pool/credentials.rs:391-406 | a refusal for good is noted for the tokens spent |
| CredentialStore.Credential.Persist | upstream/src/pool/credentials.rs:418-445 | the reply's tokens replace those spent and nothing else |
| Eligibility.RuleIsStrictTotalOrder | upstream/src/pool/app.rs:931-1006 | the rule is a strict order, total on different ids |
| Eligibility.RepresentativeIsFirst | upstream/src/pool/app.rs:899-929 | the representative is the candidate that goes before every other |
| Eligibility.RepresentativeIsBest | upstream/src/pool/app.rs:931-1006 | on the slots' fields: cooling down, what is known of the quota, how much is left, expiring credit, tier, priority and id decide in this order against every other candidate |
| Eligibility.RepresentativeIgnoresOrder | upstream/src/pool/app.rs:899-929 | it does not depend on the order of configuration |
| Eligibility.UsableIsFirst | upstream/src/pool/app.rs:1039-1065 | a slot that may serve is its identity's representative |
| Eligibility.OneUsablePerIdentity | upstream/src/pool/app.rs:1039-1065 | at most one slot of an identity may serve a model |
| Eligibility.UsableExactly | upstream/src/pool/app.rs:1039-1199 | a slot may serve if and only if it goes before every other candidate of its identity, the model is allowed and metered to it, it is not cooling down, and its own quota is open, or spent while another slot of the identity gives evidence of quota |
| Eligibility.UnnamedUsableExactly | upstream/src/pool/app.rs:1039-1199 | a slot without an identity may serve if and only if its own state lets it, with no other slot's evidence |
| Eligibility.ChooseRepresentative | upstream/src/pool/app.rs:899-929 | the slot chosen is a candidate even when the clock moves during the sort; with it fixed, the representative |
| Eligibility.WindowsStatus | upstream/src/pool/app.rs:571-673 | blocked exactly when a window at or below its threshold still counts, the first such; available exactly when all reported are above and telemetry is fresh |
| Eligibility.StatusExactly | upstream/src/pool/app.rs:571-673 | on the windows' fields: which one blocks, and when quota is available |
| Eligibility.BlockLastsUntilReset | upstream/src/pool/app.rs:564-673 | of two verdicts on the same windows, fresh or gone stale: a block by a window with a known reset stays until then, and is over then, but the verdict does not become available |
| KeyLogin.ApplySplices | upstream/src/pool/key_login.rs:431-438 | replacing back to front is one simultaneous substitution of the spans |
| KeyLogin.Untouched | upstream/src/pool/key_login.rs:403-439 | where no splice starts, every character stays as it is |
| KeyLogin.EditsAreDisjoint | upstream/src/pool/key_login.rs:403-430 | edits of members and items that lie apart never overlap (that they do is `TopIsParsed`) |
| KeyLogin.CompletedTools | upstream/src/pool/key_login.rs:452-501 | the insertions from the back place the additions where they belong, or there are none |
| KeyLogin.PlacedWhole | upstream/src/pool/key_login.rs:488-500 | inserting the later addition first is placing both at once, the helpers before image_gen at a shared place |
| KeyLogin.ToolsAddedExactly | upstream/src/pool/key_login.rs:452-501 | what is added and where: the helpers behind the leading shell tools unless one is offered, image generation before the first search tool unless it is offered |
| KeyLogin.ToolsKeepTheirPlaces | upstream/src/pool/key_login.rs:452-501 | every tool of the client stays, in order, and each addition stands together at its place |
| KeyLogin.SecondPassAddsNothing | upstream/src/pool/key_login.rs:452-501 | completing a completed list of tools changes nothing |
| KeyLogin.CompleteTools | upstream/src/pool/key_login.rs:452-501 | the text of the completed array, or nothing when the text is no array or nothing is missing |
| KeyLogin.CompletedToolsReadBack | upstream/src/pool/key_login.rs:452-501 | that text reads as the completed list, every tool with its own text, and a second pass over the text changes nothing |
| KeyLogin.GuardianCreditsOnce | upstream/src/pool/key_login.rs:549-559 | the edited text reads as the client's metadata with one member more, and a second pass adds nothing |
| KeyLogin.CallLog.Remember | upstream/src/pool/key_login.rs:287-300 | a new call pushes the oldest out of a full log; the log is always the last 4096 ids that entered, each with its latest call |
| KeyLogin.CallLog.Recall | upstream/src/pool/key_login.rs:302-309 | a call is recalled exactly while its id is among the last 4096 that entered the log, as it was remembered last |
| KeyLogin.RecallsRecent | upstream/src/pool/key_login.rs:287-309 | a call stays, with its latest arguments, while no more calls follow than there is room for and than are older |
| KeyLoginRequest.AnsweredCalls | upstream/src/pool/key_login.rs:565-616 | the edits of the items, calls of the request taken before logged ones |
| KeyLoginRequest.EditsFollowItems | upstream/src/pool/key_login.rs:565-616 | there is one edit for exactly the items that have one, in the items' order |
| AnsweredExactly.EditsAreExactly | upstream/src/pool/key_login.rs:565-616 | exactly the items are edited that answer a call (the request's last with their id, or else the logged one) with the wording for it, where a native Codex answers otherwise and the item's text has the old answer; the first place of it gets that call's answer |
| AnsweredExactly.OtherItemsStay | upstream/src/pool/key_login.rs:565-616 | every other item stands in the request that is sent as the client wrote it |
| KeyLoginRequest.TopIsParsed | upstream/src/pool/key_login.rs:380-388 | the members and items found in any request's text lie in it, and none overlaps another |
| KeyLoginRequest.EditsOfAreDisjoint | upstream/src/pool/key_login.rs:403-430 | the edits of any request never overlap |
| KeyLoginRequest.Complete | upstream/src/pool/key_login.rs:403-439 | from the text of the request: the client's text with the tools, the metadata and the answers substituted at once; a text that is no such object stays as it is |
| KeyLoginReads.CompletedWhere | upstream/src/pool/key_login.rs:380-402 | the requests that are completed: an object that gives none of the three members twice |
| KeyLoginReads.CompletedReads | upstream/src/pool/key_login.rs:380-616 | what is sent reads as an object of the same names: its tools are the completed list, its metadata has the member added exactly where it is wanted and missing, each item of its input says what its text says with its answer replaced, and every other member is the client's |
| JsonText.ValueLocal | upstream/src/pool/key_login.rs:453-457 | what is read from a stretch of text is read from it wherever it stands |
| JsonText.ItemSpansOf | upstream/src/pool/key_login.rs:453-457 | the elements of an array, found exactly where there is one, stand in order, apart, and each alone reads as the element |
| JsonText.FieldsOf | upstream/src/pool/key_login.rs:380-388 | the members of an object, found exactly where there is one, stand in order and apart, and make that object |
| JsonText.JoinedHolds | upstream/src/pool/key_login.rs:494-500 | an array joined from the texts of values has exactly those texts as its elements |
| JsonEdits.ObjectEdited | upstream/src/pool/key_login.rs:603-613 | with another value in the place of one member's, an object's text reads as the object with that member changed |
| AnsweredItems.AnsweredInside | upstream/src/pool/key_login.rs:601-613 | an old answer found inside a value lies in it whole, and with the new one it is a value again, at any depth |
| AnsweredItems.AnswerEditReads | upstream/src/pool/key_login.rs:565-616 | an item that has an answer reads with it as its own output exactly when the first place found is its own member, or nothing changed; at the own place nothing else differs |
| AnsweredItems.NestedReads | upstream/src/pool/key_login.rs:565-616 | the item with an inner object is a `function_call_output` of its call with that output |
| AnsweredItems.NestedKeepsItsOutput | upstream/src/pool/key_login.rs:565-616 | for every call, output and answer, such an item is edited inside its inner object and keeps its old output |
| ClientLimit.ClientLimits.Start | upstream/src/pool/client_limit.rs:144-159 | the popping loop and the verdict, for this key alone |
| ClientLimit.ClientLimits.Admit | upstream/src/pool/client_limit.rs:163-175 | granted and counted, or the first limit reached, as the run of the key's calls so far has it |
| ClientLimit.ClientLimits.Count | upstream/src/pool/client_limit.rs:179-183 | a start that is not held in flight, as the run of the key's calls so far has it |
| ClientLimit.ClientLimits.Drop | upstream/src/pool/client_limit.rs:119-126 | a dropped permit frees one place of its key |
| ClientLimit.RunKeeps | upstream/src/pool/client_limit.rs:119-183 | for times that do not go back, the queue is the last sixty seconds of the starts granted |
| ClientLimit.AnsweredExactly | upstream/src/pool/client_limit.rs:144-183 | in every orderly run, when a call is granted, and when it is refused for the running responses or for its minute |
| ClientLimit.WindowHoldsAtMost | upstream/src/pool/client_limit.rs:144-159 | no sixty seconds, wherever they end, hold more starts than the limit |
| ClientLimit.InFlightIsLivePermits | upstream/src/pool/client_limit.rs:119-175 | running responses are live permits, within their limit |
| ClientLimit.RetryAfterIsLeast | upstream/src/pool/client_limit.rs:152-156 | a refusal's delay is the least after which the key has room |
| ClientLimit.RetrySecondsSuffice | upstream/src/pool/client_limit.rs:70-72 | the whole seconds said are enough, and one less is not |
| ClientLimit.KeysAreIndependent | upstream/src/pool/client_limit.rs:137-183 | what happens to a key depends on its own calls alone |
| ClientLimit.OrderMattersExactly | upstream/src/pool/client_limit.rs:137-159 | every run in any order of times stays within the limit of every sixty seconds, if and only if that limit is at most one |
| ClientLimit.LateCallExceedsWindow | upstream/src/pool/client_limit.rs:137-159 | for every limit of two or more and any lateness up to a minute, a run whose last call alone comes late makes one start more than the limit |
| Conversations.Conversations.MakeRoom | upstream/src/pool/codex_request.rs:1625-1634 | the expired go, then the longest unused, until there is room |
| Conversations.Conversations.TakeTurn | upstream/src/pool/codex_request.rs:1617-1696 | one turn of the table and the identifiers it answers with |
| Conversations.TableAfter | upstream/src/pool/codex_request.rs:1617-1650 | after every turn of every run the table is within 2048 entries and its youngest entry is that turn's |
| Conversations.IdleConversationStays | upstream/src/pool/codex_request.rs:1617-1650 | an entry idle under a day, with at most 2047 other keys used since, stays as it was |
| Conversations.ConversationIsContinued | upstream/src/pool/codex_request.rs:1617-1696 | its next turn has the same thread and the identifiers of items sent again, and the same turn exactly when the last user item is the same |
| Conversations.DrawnAlong | upstream/src/pool/codex_request.rs:1663-1680 | identifiers in use were drawn before, so a new turn's is new |
| Conversations.DrawnAnew | upstream/src/pool/codex_request.rs:1617-1696 | the thread of a new conversation, a turn that is not continued and an item not sent before have identifiers no earlier turn of any conversation has, and no two items of a turn share one |
| Conversations.LastUserIs | upstream/src/pool/codex_request.rs:1652-1668 | the item a turn hangs on is the user's last |
| CacheWindow.WindowIsRecordedSince | upstream/src/pool/dashboard.rs:459-573 | over any run an account's window is what was recorded since the later reset that concerns it |
| CacheWindow.DeltaSays | upstream/src/pool/outcome.rs:1049-1083 | which counters one result raises, and by how much |
| CacheWindow.FailuresAreCounted | upstream/src/pool/outcome.rs:1191-1203 | an account's window shows every unrecognized failure noted since the last reset that concerns it, once |
| CacheWindow.PoolIsSumOfAccounts | upstream/src/pool/dashboard.rs:459-545 | the pool's window is the sum of its accounts', in all 14 fields |
| CacheWindow.MainAndSubagent | upstream/src/pool/dashboard.rs:515-534 | main and subagent windows add up to the total |
| CacheWindow.ResetAtIsLast | upstream/src/pool/dashboard.rs:444-573 | over any run the reset time shown with a window is that of the last reset that concerns it |
| CacheWindow.PromptCacheWindow | upstream/src/pool/dashboard.rs:444-548 | the loop computes those windows, the failures not recognized in them, and the reset time |
| CacheWindow.PromptCache.RecordResult | upstream/src/pool/outcome.rs:1032-1083 | the increments, one after the other, add one result's counters |
| CacheWindow.PromptCache.NoteUnrecognized | upstream/src/pool/outcome.rs:1191-1203 | only the count of unrecognized failures changes |
| CacheWindow.PromptCache.ResetWindow | upstream/src/pool/dashboard.rs:553-558 | every counter is rebaselined, and every account has this reset time |
| CacheWindow.PromptCache.ResetWindowFor | upstream/src/pool/dashboard.rs:561-573 | one account's counters are, and it has its own reset time |
| CacheWindow.WindowCountsInOrder | upstream/src/pool/outcome.rs:1049-1069 | whatever is reset, a window shows no more hits than observed requests, no more of those than requests, no more cold ones than eligible |
| CacheWindow.KeyTextsDiffer | upstream/src/pool/outcome.rs:1045-1046 | no two counters share a key, whatever the model is called |
| WsHeaders.OrderedWebSocketHeaders | upstream/src/transport.rs:318-345 | the loops give the wire order, rotated; with five names or more, removing any library's own five headers leaves the known names in order and then the others as they came |
| WsHeaders.WrittenInWireOrder | upstream/src/transport.rs:131-345 | for distinct names, the library's own among them dropped, the forwarded names come out in that order exactly when there are five or more, or at most one |
| WsHeaders.RotationRestoresOrder | upstream/src/transport.rs:309-345 | with five names or more the library writes exactly the wire order |
| WsHeaders.FewNamesComeBackwards | upstream/src/transport.rs:309-345 | with fewer it writes them backwards |
| WsHeaders.OrderRestoredExactly | upstream/src/transport.rs:309-345 | the order comes out exactly for five names or more, or at most one |
| Pbkdf2.HmacSha256 | upstream/src/pool/crypto.rs:19-34 | HMAC of section 2 of RFC 2104 |
| Pbkdf2.Mac | upstream/src/pool/crypto.rs:48-54 | cloning the keyed states gives the same HMAC |
| Pbkdf2.Pbkdf2Sha256 | upstream/src/pool/crypto.rs:36-74 | the derived key of section 5.2 of RFC 8018, of exactly the length asked for, wherever that section allows it |
| Pbkdf2.DerivedByte | upstream/src/pool/crypto.rs:36-74 | every byte of the derived key is the exclusive-or of the chained codes of its block, as section 5.2 of RFC 8018 has it |
| Pbkdf2.PaddedByte | upstream/src/pool/crypto.rs:19-34 | the padded key, byte by byte |
| Pbkdf2.ConstantTimeEq | upstream/src/pool/crypto.rs:155-163 | looking at every byte decides equality |
| LogFile.RotatingLogFile.Write | upstream/src/pool/log.rs:41-58 | the rename loop and the append leave the files the specification says |
| LogFile.RotationKeeps | upstream/src/pool/log.rs:42-54 | a rotation loses at most the oldest file |
| LogFile.RotatesExactly | upstream/src/pool/log.rs:41-58 | a line begins a new file exactly when it does not fit and the current one holds something |
| LogFile.KeptIsSuffix | upstream/src/pool/log.rs:41-58 | keeping at least one file, the files hold a suffix of everything written, in whole lines |
| LogFile.RotatedFilesAreBounded | upstream/src/pool/log.rs:41-58 | a file a rotation started is within the limit, or holds one line over it |
| LogFile.KeepNoneGrows | upstream/src/pool/log.rs:41-58 | keeping none, rotation does nothing and the file grows |

## Left out

- Number printing of `gojson.rs`, and the value of a number read: a number is a token of the grammar; how floating point is rounded, refused for its size, and spelled is not modelled.
- UTF-8: texts are characters, so a span is a range of characters, not of bytes.
- Texts of refusals, messages and errors, HTTP handlers and headers other than those named above.
- `turn_metadata`, the fields that are hashed or drawn in a completed request: they are parameters of `RequestCompletion.Complete`.
- RequestCheck.CheckRequest: returns which parameter is refused, not the reason and the advice shown to the client.
- LoginRuns.HistoryStaysWithIdentity: requests in flight across a sign-in, and creation and deletion of slots, are not part of the runs.
- LoginPool.Pool.Start: the switch that closes upstream altogether, and the sign-in program's own output, are not modelled.
- TokenRefresh.ReplacedTokensAreNotSent: an exchange that times out after upstream answered counts as a lost reply; the process dying during one is not a step.
- TokenRefresh.RefusedTokensAreNotSent: a later record for another reason, or a usage answer that clears the record, ends what it states, as it does in the source.
- Eligibility: plans, quota meters and credentials are fields of a slot; the priorities of different identities against each other are not modelled.
- KeyLoginRequest.AnsweredCalls: what a native Codex answers, the wording it replaces, and what serde reads of one item are parameters.
- KeyLoginRequest.Complete: what serde reads of one tool and of one item is a function of its text; a request that is a JSON array, which serde would take for the three members in order, stays as it is.
- GoJson.MarshalRoundTrip: numbers are tokens, so that 1 and 1.0 are printed alike is not part of it.
- GoJson.MarshalInjective: numbers are tokens, as above.
- RequestCheck.CheckOneItem: returns which parameter is refused, not the reason and the advice.
- RequestCheck.CheckOneField: returns which parameter is refused, not the reason and the advice.
- RequestCompletion.Complete: the headers of the completed request are left out, and the turn metadata is a parameter.
- LoginPool.Pool.ApplyCompletedDeviceAuth: the plan, the seat and the labels are one flag.
- `pool_capacity`, `throughput_series` and `histogram_percentile_millis` of the dashboard: sums over buckets that would add only easy members.
- `ordered_headers` and `named_order_headers` of the transport: lists built without the rotation.
- `hash.rs`, `classify.rs`, `routing.rs`, the WebSocket relay, TLS and scheduling: library behaviour, floating-point bits, or code outside these parts.
- Json, CodexPrinter and RequestGate model the members of a request on values; the printers, the check's loops and the edits are methods over a buffer, a list and a copy of the payload.
