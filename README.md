# textmagic client core, modelled in Dafny

A model of the core of a Go client for the TextMagic SMS-gateway HTTP API,
with its properties proved. The model covers four parts:

- **Numeric codec** (`utils.go`). `utos` renders a `uint64` in decimal by filling a 21-byte
  buffer from the right. `stou` parses a digit string with a wrapping `num*10 + d`
  accumulator. `joinUints` comma-joins renderings into one growing buffer.
  Module `Codec`, file `codec.dfy`.
- **Batcher** (`splitSlice`). It cuts an identifier list into consecutive chunks of at most
  `max` items. `utils.go` reads `max` from a package variable. The copy in `textmagic.go`
  hard-codes 100. Both are one method with an explicit positive bound, and
  `MaxInSlice = 100` is used at the `textmagic.go` call sites. Module `Batcher`, file `batcher.dfy`.
- **Delivery status codes** (`DeliveryNotificationCode.Status` and `.String`). Module
  `Delivery`, file `delivery.dfy`.
- **Call primitive and commands** (`textmagic.go`). `sendAPI` runs its checks in a fixed
  order and returns exactly one outcome. It is modelled over an abstract `Response`
  record, together with the four error types and their `Error()` messages (module
  `Api`, file `api.dfy`). `MessageStatus`, `DeleteReply` and `CheckNumber` are
  modelled in module `Commands`, file `commands.dfy`.
  - `MessageStatus` and `DeleteReply` make one call per batch.
  - `CheckNumber` makes a single call.

`Wrappers` (`wrappers.dfy`) holds the `Option` and `Result` datatypes.

How the model treats its inputs:
- The remote server is a parameter `server(i, q)`. It gives the response to the i-th call
  whose list parameter (`ids`, `deleted` or `phone`) is `q`.
- Each command method also returns `calls`: the list parameters it sent, in order. This
  makes "one call per batch, in order, and none after the first failure" a checked
  postcondition.
- `sendAPI` decodes the body a second time into the caller's result variable (`Api.Target`).
  - A variable passed by pointer (`&d` in `DeleteReply`) receives the decoded payload.
  - A variable passed by value (the maps in `MessageStatus` and `CheckNumber`) cannot be
    filled. `json.Unmarshal` reports an error that `sendAPI` discards, and the variable keeps
    the value it had. As written, both commands therefore always merge an empty map (see
    the Findings section).
- A reply map that does get filled reaches the model as a sequence of (key, value) entries, in
  the order Go's map iteration visits them. Go randomises that order. Every lemma about
  merging holds for all orders, and says which entry wins when two keys decode to the
  same number: the later one.
- Response keys are decoded by `strconv.Atoi` followed by `uint(...)`. The model
  follows Go's documented behaviour:
  - an optional sign, then at least one digit;
  - the value must fit an `int64`;
  - negative values wrap modulo 2^64.
  So an identifier of 2^63 or more never reads back as a key (`KeyOfDecimal`).

Behaviours of the code worth knowing, which the model keeps:
- `stou` has no emptiness check, so `stou("")` is `(0, true)`.
- `CheckNumber` is not batched. It sends all numbers in one call, however many there are.
- The text for unknown codes is `"The status is unknown."`.
- Code `"u"` is classified `final`, yet `String` has no case for it, so it is described as unknown.

## Model

| member | source | states |
|---|---|---|
| `Codec.Utos` | utils.go:40-51 | the result is the decimal rendering `Decimal(num)`, including `"0"` for zero |
| `Codec.FillDigits` | utils.go:44-50 | the digit loop writes the rendering into `digits[pos..]` and leaves `digits[..pos]` as it was; `pos` stays in [1, 21), so the 21-byte buffer never underflows |
| `Codec.DecimalWellFormed` | utils.go:40-51 | every rendering is a non-empty digit string; it is `"0"` exactly for zero and otherwise has no leading `'0'`; its decimal value is `n` |
| `Codec.DecimalLength` | utils.go:44-50 | a rendering has at most k digits exactly when `n < 10^k` |
| `Codec.Uint64Digits` | utils.go:44-50 | every uint64 renders in 1 to 20 digits, one fewer than the buffer size |
| `Codec.CanonicalIsDecimal` | utils.go:40-51 | a digit string with no leading zero is the rendering of its own value, so `utos` yields the only canonical form |
| `Codec.Stou` | utils.go:53-63 | `ok` holds iff every character is a digit; on success `num` is the value mod 2^64; on failure `(0, false)` |
| `Codec.Parsed` | utils.go:53-63 | the result `stou` returns: `true` iff all characters are digits, the value reduced mod 2^64, and 0 on rejection |
| `Codec.AccumulateIsValueMod` | utils.go:54-62 | the step-by-step wrapping fold `(acc*10 mod 2^64 + d) mod 2^64` equals the exact value mod 2^64 |
| `Codec.LeadingZeroIgnored` | utils.go:53-63 | `stou` has no leading-zero check: prefixing `"0"` never changes the result (so `"007"` parses as 7) |
| `Codec.RoundTrip` | utils.go:40-63 | `stou(utos(n)) == (n, true)` for every uint64 `n` |
| `Codec.JoinUints` | utils.go:5-24 | the result is the renderings of the items in order, separated by single commas; empty input gives `""` |
| `Codec.JoinedFields` | utils.go:5-24 | splitting the joined text on `','` gives back each item's rendering, in order |
| `Codec.FieldsCount` | utils.go:5-24 | a text with c commas splits into c + 1 fields |
| `Codec.JoinedRoundTrip` | utils.go:5-24 | the joined text has exactly `len(u)-1` commas, and every field parses back to its item |
| `Batcher.SplitSlice` | utils.go:28-38 | the result is `Chunks(slice, max)`: its concatenation is the input, and every chunk has 1 to `max` items |
| `Batcher.ChunksConcat` | utils.go:28-38 | concatenating the chunks in order reproduces the input exactly, with nothing lost, duplicated or reordered |
| `Batcher.ChunksBounds` | utils.go:28-38 | chunk lengths are in [1, max], all chunks but the last have exactly `max` items, the count is ceil(len/max), and empty input gives zero chunks |
| `Batcher.TwoHundredFiftyIds` | textmagic.go:215-227 | with the limit of 100, 250 items split into chunks of 100, 100 and 50, in order |
| `Delivery.Status` | textmagic.go:72-80 | the result is one of the three classes; `"intermediate"` iff the code is in {q,r,a,b,s}, and `"final"` iff it is in {d,f,e,j,u} |
| `Delivery.ClassesDisjoint` | textmagic.go:73-78 | the intermediate and final code sets are disjoint |
| `Delivery.Description` | textmagic.go:82-106 | the description is `"The status is unknown."` exactly for codes outside {q,r,a,b,d,f,e,j,s} |
| `Delivery.DescriptionInverse` | textmagic.go:82-106 | each of the nine described codes can be read back from its sentence |
| `Delivery.DescriptionInjective` | textmagic.go:82-106 | two codes with the same non-unknown sentence are the same code |
| `Delivery.DescriptionMatchesStatus` | textmagic.go:72-106 | a code is described as unknown iff it is classified unknown or is `"u"`; `"u"` is classified final |
| `Api.SendAPI` | textmagic.go:32-56 | exactly one outcome, in order: transport failure gives RequestError; else a non-200 status gives StatusError; else an envelope decode failure gives JSONError; else a non-zero error code gives APIError with that code and message; else success with what the caller's variable holds: the payload when it was passed by pointer, its earlier value when passed by value; every error carries the command |
| `Api.ValueTargetIgnoresPayload` | textmagic.go:54 | a variable passed by value never sees the reply body: the outcome is the same whatever the payload |
| `Api.PayloadDecodeIgnored` | textmagic.go:54-55 | the outcome does not depend on whether the payload decode succeeded |
| `Api.RejectionHidesPayload` | textmagic.go:50-53 | a clean reply whose envelope has a non-zero code yields exactly `APIError(cmd, code, message)`, never the payload |
| `Api.ErrorText` | textmagic.go:237-266 | every error message begins with `"command " + Cmd` |
| `Api.CommandRecoverable` | textmagic.go:237-266 | for a command name without spaces, the name can be read back from any of the four messages |
| `Commands.Atoi` | textmagic.go:127-130 | a key that decodes is non-empty and within int64 range; a negative value needs a leading `'-'`; an unsigned key decodes to its decimal value |
| `Commands.KeyOf` | textmagic.go:127-131 | a key decodes iff Atoi accepts it; non-negative values are kept, negative ones become `2^64 + v` (Go's `uint` conversion) |
| `Commands.KeyOfDecimal` | textmagic.go:127-131 | a rendered identifier decodes back to itself iff it is at most 2^63-1; larger ones are skipped |
| `Commands.KeyOfAgainstStou` | textmagic.go:127-131 | unlike `stou`, the key decoder rejects `""` and maps `"-1"` to 2^64-1; on unsigned digit strings within int64 range the two agree |
| `Commands.MergeInto` | textmagic.go:126-132 | the loop over a reply's entries produces `MergeEntries(acc, entries)` |
| `Commands.MergeEntriesKeys` | textmagic.go:126-132 | after merging, a key is present iff it was present before or some reply key decodes to it |
| `Commands.MergeEntriesLastWins` | textmagic.go:126-132 | a decoded key maps to the value of the last entry naming it |
| `Commands.MergeEntriesKeeps` | textmagic.go:126-132 | a key that no entry decodes to keeps its earlier value |
| `Commands.CallBatch` | textmagic.go:120-122 | one batch call joins the batch's identifiers and sends them; the list sent is `Joined(batch)` and the outcome is that batch's entry of `Outcomes` |
| `Commands.FirstFailure` | textmagic.go:119-125 | the index of the first failed batch call, or the batch count: all earlier outcomes succeeded, and the one at that index failed |
| `Commands.FirstFailureOfPrefix` | textmagic.go:119-125 | outcomes after the first failure have no effect on which error is returned |
| `Commands.StatusBatches` | textmagic.go:118-134 | the batch loop: one call per chunk in order, stopping after the first failure; returns the maps merged from the earlier batches, the first error (or none), and the `ids` values sent |
| `Commands.MessageStatus` | textmagic.go:117-135 | as written, with each reply map passed by value: the same calls and error as the loop, and the returned map is always empty |
| `Commands.MessageStatusNeverMerges` | textmagic.go:121-122 | with reply maps passed by value, the result map is empty for every server |
| `Commands.MessageStatusByPointer` | textmagic.go:117-135 | with each reply map passed by pointer, the result of the batch loop over the server's reply bodies |
| `Commands.MessageStatusByPointerKeys` | textmagic.go:126-133 | with reply maps passed by pointer, a key is in the result iff an entry of some server reply before the first failure decodes to it |
| `Commands.MessageStatusDropsReply` | textmagic.go:121-131 | identifier 123 whose call returns `{"123": v}`: as written the result is empty, passed by pointer it is `{123: v}` |
| `Commands.MergedStatusesKeys` | textmagic.go:126-133 | over the outcomes the loop merges, a key is in the merged map iff an entry of some outcome before the first failure decodes to it (as written every such outcome is empty: `Commands.MessageStatusNeverMerges`) |
| `Commands.MergedStatusesPrefix` | textmagic.go:119-133 | the merged map depends only on the replies of the batches it merged |
| `Commands.MessageStatusIgnoresLaterReplies` | textmagic.go:119-125 | two servers that agree on the calls up to and including the first failure give the same result, however the reply maps are passed |
| `Commands.MessageStatusTwoHundredFifty` | textmagic.go:117-135 | 250 identifiers whose calls all succeed are sent as three calls: the first 100, the next 100 and the last 50, however the reply maps are passed |
| `Commands.DeleteReply` | textmagic.go:162-172 | one call per chunk in order, stopping after the first failure; returns the deleted lists of the earlier batches concatenated in batch order, the first error (or none), and the `deleted` values sent |
| `Commands.DeletedUpToIsFlatten` | textmagic.go:162-172 | the accumulated result is the in-order concatenation of the batch replies' lists |
| `Commands.EchoServerDeletesAll` | textmagic.go:162-172 | when every batch call succeeds and reports its batch deleted, the result is exactly the input identifiers, after one call per batch |
| `Commands.CheckNumberWith` | textmagic.go:142-156 | exactly one call with all numbers joined; on error no map (nil) and the error, otherwise the reply map's entries keyed by decoded number, skipping undecodable keys |
| `Commands.CheckNumber` | textmagic.go:142-156 | as written, with the reply map passed by value: exactly one call with all numbers joined; on error no map (nil) and the error, otherwise an empty, non-nil map |
| `Commands.CheckNumberByPointer` | textmagic.go:142-156 | with the reply map passed by pointer: on success the server's reply keyed by decoded number, skipping undecodable keys |
| `Commands.CheckNumberDropsReply` | textmagic.go:143-153 | number 123 whose call returns `{"123": v}`: as written the merged map is empty, passed by pointer it is `{123: v}` |

## Left out

- HTTP transport and URL building (`http.Get`, `apiURLPrefix`, and `params.Add` of username, password and cmd): foreign I/O. Each call is an abstract `Response` chosen by the `server` parameter. The credential parameters are not modelled.
- JSON decoding and the `io.TeeReader`/`memio` double read of the body: a foreign library. The model is given the decoded envelope (or its decode error) and the value the second decode leaves in a target passed by pointer. A target passed by value keeps its earlier value (`Api.Target`).
- Api.SendAPI: the "exactly one outcome" contract assumes the reply's length is known. When `ContentLength` is -1 (a chunked reply, or one that net/http decompresses itself), `make([]byte, -1)` at textmagic.go:44 panics and `sendAPI` returns nothing. The model has no such path: `Response` carries no length.
- `http.StatusText`: a foreign lookup. It is the `statusText` parameter of `Api.ErrorText`.
- `Account` and the float fields (`Balance`, `Price`, `Cost`): floating-point pass-through with no logic. The `Status` and `Number` records are the type parameter `V` and pass through unchanged.
- `Receive`: a single pass-through call with no logic of its own.
- The `Send` command of the provider's API: `textmagic.go` defines no such method, so there is nothing to model.
- The mutable package variable `maxInSlice`: it is an explicit positive parameter of `Batcher.SplitSlice`. A concurrent write to it is not modelled.
- Byte-level strings: Go strings are bytes, and `stou` ranges over UTF-8 runes. The model uses `seq<char>`. Any non-ASCII rune is a non-digit in both.
- `uint` in `textmagic.go` is taken to be 64 bits wide, the same as `uint64`.
- Slice capacities and aliasing: `make(..., 0, cap)` preallocation, and `splitSlice` chunks that share the caller's backing array, become sequence values. The reuse of one `digits` array across items in `joinUints` is kept, in `Codec.JoinUints`.
- Go's random map-iteration order is an input (the order of the entry sequence), not a nondeterministic choice inside the model.
- Test scaffolding: the `httptest` server, `TestMain` credential loading and `t.Parallel`.

## Findings

| source | as written | input that shows it | evidently intended | confidence | as-written member | corrected member |
|---|---|---|---|---|---|---|
| textmagic.go:121-122 | `strStatuses` is passed to `sendAPI` by value. `json.Unmarshal` (textmagic.go:54) rejects a non-pointer target, and the error is discarded, so the map stays empty and `MessageStatus` returns an empty map on success | ids `[123]`, server answers 200 with `{"123": v}`: the result is `map[]` (`Commands.MessageStatusDropsReply`) | pass `&strStatuses`, so that the reply is merged and the result is `{123: v}` | high; not executed | `Commands.MessageStatus` | `Commands.MessageStatusByPointer` |
| textmagic.go:143-144 | `ns` is passed to `sendAPI` by value, so it stays empty and `CheckNumber` returns an empty non-nil map on success | numbers `[123]`, server answers 200 with `{"123": v}`: the result is `Some(map[])` (`Commands.CheckNumberDropsReply`) | pass `&ns`, so that the result is `{123: v}` | high; not executed | `Commands.CheckNumber` | `Commands.CheckNumberByPointer` |
