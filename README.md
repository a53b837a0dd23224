# KBFS block operations, request ids and block-reference accounting in Dafny

This project models three parts of the Keybase filesystem library (libkbfs).

- **`BlockOpsStandard`** (`BlockOps.dfy`, `Server.dfy`). This is the block pipeline between a folder and the block server.
  - `Ready` runs a fixed chain: fetch the folder's encryption key, make a fresh server key half, unmask the block key, encrypt, encode, check the size, and name the block by its encoded bytes.
  - A deferred function resets the other three named results (`id`, `plainSize`, `readyBlockData`) to their zero values whenever the returned error is not nil.
  - `Get` fetches, looks up the decryption key, unmasks, decodes and decrypts, stopping at the first error.
  - `Put` stores the block's bytes only for the zero reference nonce. Any other nonce only adds a reference.
  - `Delete` removes one reference.
  - The key manager, crypto, codec and block-server fetch are function-valued fields of a `Config` value. Each run records the steps it reached. Lemmas state, for `Ready` and for `Get`, which error and which prefix of steps each failing step yields, and what a run whose every step succeeds returns.
  - The block server is a class. It holds a reference map, the stored blocks, a log of the requests it received, and a fault oracle deciding each request's answer.
- **The helpers of `util.go`** (`Util.dfy`).
  - `BoolForString` over Go's `strings.TrimSpace` (Unicode white space).
  - The request id: URL-safe base64 (section 5 of RFC 4648) of 16 random bytes, with the trailing `==` cut off.
  - `Build` and `VersionString`.
- **Block-reference accounting** (`BlockRefs.dfy`, `QuotaReclamation.dfy`).
  - `totalBlockRefs` sums the nonce maps of `map[BlockID]map[BlockRefNonce]blockRefLocalStatus`. It is a loop over the map proved against a ghost sum whose value does not depend on the order in which blocks are visited.
  - Quota reclamation is an abstract step. A reference is eligible once it has been unreferenced for at least `minUnrefAge`. A run removes exactly the smaller of `maxPerRun` and the number of eligible references, all of them eligible, and changes nothing else.
  - The tests' observations are proved about that step: a run with nothing old enough changes nothing; a run after the clock moves on shrinks the total; a single run is bounded; and the "run until one is left" loop terminates.

`Wrappers.dfy` holds `Option`/`Result`. `DataTypes.dfy` holds the value types shared by the modules: block ids, pointers, contexts, reference nonces (64-bit), server halves and errors.

## Model

| member | source | states |
|---|---|---|
| BlockOps.Ready | kbfs/libkbfs/block_ops.go:45-106 | on any error, `id`, `plainSize` and `readyBlockData` are zero; the steps reached are a non-empty prefix of the fixed chain; success ran every step; an error run is exactly the zeroed run stopped at that step |
| BlockOps.ReadyStopsAtFirstFailure | kbfs/libkbfs/block_ops.go:59-103 | for each step, if every earlier step succeeded and this one fails, Ready returns that step's error with every later step unrun |
| BlockOps.ReadySucceedsWhenEveryStepDoes | kbfs/libkbfs/block_ops.go:59-105 | when every collaborator succeeds and the encoding is at least as long as the plaintext, Ready returns no error, every step, the permanent id of the buffer, the encrypted plain size, and the buffer with the fresh server half |
| BlockOps.ReadySizeCheck | kbfs/libkbfs/block_ops.go:91-98 | once encoded, Ready stops at the size check iff the encoded size is below the plain size, then with `TooLowByteCountError(plainSize, encodedSize)`; equal sizes pass |
| BlockOps.ReadySucceeded | kbfs/libkbfs/block_ops.go:66-100 | on success the id is `MakePermanentBlockID` of exactly the returned buffer, the returned server half is the one the block key was unmasked from, the buffer encodes that key's ciphertext, and the plain size is at most the encoded size |
| BlockOps.Get | kbfs/libkbfs/block_ops.go:14-43 | the steps reached are a prefix of fetch, key, unmask, decode, decrypt; success ran them all; a failed fetch returns its error before any other step |
| BlockOps.GetStopsAtFirstFailure | kbfs/libkbfs/block_ops.go:17-42 | a failed fetch, key lookup, unmask or decode returns that step's error with no later step run; once all four succeed, Get returns what decryption answers, error or block |
| BlockOps.GetSucceeded | kbfs/libkbfs/block_ops.go:17-42 | a Get that reached decryption decrypted the decoding of the fetched bytes under the key unmasked from the fetched server half and the folder's decryption key |
| BlockOps.GetAfterReady | kbfs/libkbfs/block_ops.go:29-42 | with a codec and cipher that round-trip, a Get served with what Ready produced returns the original block |
| BlockOps.PutRequest | kbfs/libkbfs/block_ops.go:112-118 | the request carries the bytes and server half iff the nonce is zero, and is otherwise an add-reference request; both name the pointer's block and `md.ID` |
| BlockOps.BlockOpsStandard.Put | kbfs/libkbfs/block_ops.go:108-119 | sends exactly that one request, returns the server's answer unchanged, and on success adds the reference (and the bytes, for the zero nonce) |
| BlockOps.BlockOpsStandard.Delete | kbfs/libkbfs/block_ops.go:121-127 | sends only a remove-reference request for `id` in `md.ID`, returns the server's answer unchanged, never touches stored bytes |
| BlockOps.BlockOpsStandard.constructor | kbfs/libkbfs/block_ops.go:7-9 | holds the configuration and the block server it relays to |
| Server.BlockServer.Put | kbfs/libkbfs/block_ops.go:113-114 | logs the store request; on success adds a live reference and stores bytes and server half |
| Server.BlockServer.AddBlockReference | kbfs/libkbfs/block_ops.go:118 | logs the request; on success adds the reference and stores no bytes |
| Server.BlockServer.RemoveBlockReference | kbfs/libkbfs/block_ops.go:125 | logs the request; on success removes the reference, keeping stored bytes |
| BlockRefs.TotalBlockRefs | kbfs/libkbfs/folder_block_manager_test.go:13-19 | the loop over the map returns the sum over blocks of their number of nonces |
| BlockRefs.SumRefsPick | kbfs/libkbfs/folder_block_manager_test.go:15-17 | any block can be counted first: the sum does not depend on the map's iteration order |
| BlockRefs.EmptyMapHasNoRefs | kbfs/libkbfs/folder_block_manager_test.go:13-19 | the empty map counts 0 |
| BlockRefs.TotalRefsZeroIff | kbfs/libkbfs/folder_block_manager_test.go:13-19 | the count is 0 iff every block's nonce map is empty |
| BlockRefs.NoEmptyEntriesTotalZero | kbfs/libkbfs/folder_block_manager_test.go:13-19 | a map without empty entries counts 0 iff it is empty |
| BlockRefs.TotalRefsSplit | kbfs/libkbfs/folder_block_manager_test.go:13-19 | the count is one block's nonces plus the count of the rest |
| BlockRefs.AddRef | kbfs/libkbfs/block_ops.go:112-118 | the reference is present with its status; other blocks and the block's other nonces are unchanged; the block gains one nonce iff it was new |
| BlockRefs.RemoveRef | kbfs/libkbfs/block_ops.go:122-126 | the reference is gone; other blocks are unchanged; the block loses one nonce iff it was present |
| BlockRefs.RemoveRefDecrements | kbfs/libkbfs/folder_block_manager_test.go:105-109 | removing a present reference lowers the count by exactly 1 |
| BlockRefs.RemoveAbsentRefKeepsTotal | kbfs/libkbfs/folder_block_manager_test.go:13-19 | removing an absent reference keeps the count |
| BlockRefs.AddRefIncrements | kbfs/libkbfs/folder_block_manager_test.go:350-353 | adding a new nonce raises the count by exactly 1 |
| BlockRefs.AddThenRemoveRef | kbfs/libkbfs/block_ops.go:108-127 | deleting the reference a put just added gives back the reference map as it was |
| BlockRefs.StoreFreshBlockOneRef | kbfs/libkbfs/folder_block_manager_test.go:355-359 | storing a block that was not there leaves it with exactly one reference, and keeps "no block has more than one reference" |
| QuotaReclamation.Eligible | kbfs/libkbfs/folder_block_manager_test.go:54-109 | a run may remove only references still present whose unreference time is at least `minUnrefAge` before now |
| QuotaReclamation.EligibleGrowsWithTime | kbfs/libkbfs/folder_block_manager_test.go:83-109 | moving the clock forward never makes a reference ineligible |
| QuotaReclamation.IsRun | kbfs/libkbfs/folder_block_manager_test.go:64-109 | a run removes exactly the smaller of `maxPerRun` and the number of eligible references and nothing else; hence whatever it removes was present, and at most `maxPerRun` references go |
| QuotaReclamation.Without | kbfs/libkbfs/folder_block_manager_test.go:100-109 | taking a set of references out never leaves a block with an empty nonce map |
| QuotaReclamation.WithoutHasRef | kbfs/libkbfs/folder_block_manager_test.go:100-109 | a reference survives iff it was present and not taken out |
| QuotaReclamation.WithoutNothing | kbfs/libkbfs/folder_block_manager_test.go:76-79 | taking nothing out leaves the map as it was |
| QuotaReclamation.WithoutTwice | kbfs/libkbfs/folder_block_manager_test.go:168-185 | two removals in a row take out exactly the union of what each removed |
| QuotaReclamation.EligibleWithout | kbfs/libkbfs/folder_block_manager_test.go:168-185 | after references are taken out, what is eligible is what was eligible minus those references |
| QuotaReclamation.WithoutCount | kbfs/libkbfs/folder_block_manager_test.go:105-109 | taking out a set of present references lowers the count by the size of the set |
| QuotaReclamation.RunWithNothingEligibleChangesNothing | kbfs/libkbfs/folder_block_manager_test.go:54-79 | a run when no reference is old enough leaves the map exactly equal |
| QuotaReclamation.RunIsBounded | kbfs/libkbfs/folder_block_manager_test.go:112-113 | a run lowers the count by what it removed, and by at most `maxPerRun` |
| QuotaReclamation.OneRunLeavesMoreThanOne | kbfs/libkbfs/folder_block_manager_test.go:141-165 | with more than `maxPerRun + 1` references, one run leaves more than one |
| QuotaReclamation.RunShrinksWhenEligible | kbfs/libkbfs/folder_block_manager_test.go:83-109 | with something eligible and a positive bound, a run strictly lowers the count |
| QuotaReclamation.RunKeepsTheRestEligible | kbfs/libkbfs/folder_block_manager_test.go:168-185 | what stays eligible after a run is what was eligible minus what it removed |
| QuotaReclamation.ClockAdvanceMakesEligible | kbfs/libkbfs/folder_block_manager_test.go:83 | moving the clock `2 * minUnrefAge` past a reference's unreference time makes it eligible |
| QuotaReclamation.RemoveBatch | kbfs/libkbfs/folder_block_manager_test.go:145-151 | removes `min(maxPerRun, candidates)` of the candidates, in any order, and nothing else |
| QuotaReclamation.Run | kbfs/libkbfs/folder_block_manager_test.go:64-69 | the new map is a bounded removal of eligible references, the count drops by what was removed, stored blocks are untouched |
| QuotaReclamation.RunUntilOneLeft | kbfs/libkbfs/folder_block_manager_test.go:167-185 | the `for b > 1` loop shrinks the count on every pass, terminates, and ends with at most one reference; the final map is the starting map with only references that were eligible at the start taken out |
| QuotaReclamation.SimpleScenario | kbfs/libkbfs/folder_block_manager_test.go:24-110 | a run right after unreferencing removes nothing, so the map is unchanged; a run `2 * minUnrefAge` later removes a non-empty set of the then-eligible references and nothing else, strictly lowering the count; stored blocks and the request log are untouched |
| Util.IsSpace | kbfs/libkbfs/util.go:70 | `unicode.IsSpace` as `strings.TrimSpace` uses it: space, tab, newline and carriage return are white space; ASCII letters, digits, `=`, `-` and `_` are not |
| Util.LeadingSpaces | kbfs/libkbfs/util.go:70 | the string starts with that many white-space characters and then a non-space |
| Util.TrailingSpaces | kbfs/libkbfs/util.go:70 | the string ends with that many white-space characters, preceded by a non-space |
| Util.TrimSpace | kbfs/libkbfs/util.go:70 | the result has no white space at either end and is the slice between the leading and trailing white space |
| Util.LeadingSpacesOf | kbfs/libkbfs/util.go:70 | white space followed by a non-space has exactly that white space as its leading run |
| Util.TrailingSpacesOf | kbfs/libkbfs/util.go:70 | a non-space followed by white space has exactly that white space as its trailing run |
| Util.TrimSpaceOfPadded | kbfs/libkbfs/util.go:70 | trimming a trimmed string padded with white space gives the string back |
| Util.TrimSpaceSplits | kbfs/libkbfs/util.go:70 | every string is leading white space, its trimmed core and trailing white space |
| Util.TrimSpaceIgnoresPadding | kbfs/libkbfs/util.go:70 | adding white space at either end never changes the trimmed string |
| Util.BoolForString | kbfs/libkbfs/util.go:68-75 | false iff the trimmed string is `""`, `"0"`, `"false"` or `"no"` |
| Util.BoolForStringIgnoresPadding | kbfs/libkbfs/util.go:70 | adding white space at either end never changes the answer |
| Util.PaddedFalseWordIsFalse | kbfs/libkbfs/util.go:71-73 | a false word with any white space around it reads as false |
| Util.TrimmedWord | kbfs/libkbfs/util.go:70 | a string without white space at its ends trims to itself |
| Util.TrimmedWordIsTrue | kbfs/libkbfs/util.go:71-74 | any other trimmed word reads as true |
| Util.CapitalizedFalseIsTrue | kbfs/libkbfs/util.go:71-74 | the match is case-sensitive: `"False"` reads as true |
| Util.UpperCaseNoIsTrue | kbfs/libkbfs/util.go:71-74 | `"NO"` reads as true |
| Util.EncodeDigit | kbfs/libkbfs/util.go:43 | the digit for a 6-bit value is in the URL-safe alphabet and its value is that number |
| Util.Group | kbfs/libkbfs/util.go:43 | three bytes split into four 6-bit values |
| Util.UngroupGroup | kbfs/libkbfs/util.go:43 | the four 6-bit values give the three bytes back |
| Util.Sextets | kbfs/libkbfs/util.go:43 | `n` bytes give `(4n + 2) / 3` values, each below 64 |
| Util.OctetsSextets | kbfs/libkbfs/util.go:43 | the bytes can be read back from their 6-bit values |
| Util.Digits | kbfs/libkbfs/util.go:43 | one URL-safe digit per 6-bit value |
| Util.ValuesDigits | kbfs/libkbfs/util.go:43 | the values can be read back from their digits |
| Util.EncodedLength | kbfs/libkbfs/util.go:43 | digits plus padding fill whole groups of four characters |
| Util.Encode | kbfs/libkbfs/util.go:43 | the encoding is `4 * ceil(n / 3)` characters: URL-safe digits followed by as many `=` as the last group lacks |
| Util.DecodeEncode | kbfs/libkbfs/util.go:43 | decoding undoes encoding for every byte string |
| Util.EncodeInjective | kbfs/libkbfs/util.go:43 | different byte strings have different encodings |
| Util.TrimSuffix | kbfs/libkbfs/util.go:43 | drops the suffix when the string ends with it, otherwise returns the string |
| Util.RequestIdFromBytes | kbfs/libkbfs/util.go:37-43 | for 16 bytes: 22 URL-safe digits, no `=`, and the id followed by `==` is the padded encoding |
| Util.RequestIdInjective | kbfs/libkbfs/util.go:30-43 | different 16-byte buffers give different ids, so uniqueness rests only on the random bytes |
| Util.MakeRandomRequestId | kbfs/libkbfs/util.go:32-44 | a failed random read gives `""` and that error; otherwise no error and the trimmed encoding |
| Util.Build | kbfs/libkbfs/util.go:81-86 | the custom build when it is set, the default build otherwise |
| Util.VersionString | kbfs/libkbfs/util.go:88-91 | the version, then `-`, then `Build()` |

## Left out

- Contexts, cancellation and goroutines (`runUnlessCanceled`, `ctx` parameters): concurrency is not modelled.
- `LogTagsFromContextToMap` and `ctxWithRandomID`: these depend on context value lookups, dynamic type assertions and the logger.
- The real key manager, crypto and codec (`GetTLFCryptKeyFor*`, `MakeRandomBlockCryptKeyServerHalf`, `UnmaskBlockCryptKey`, `EncryptBlock`, `DecryptBlock`, `MakePermanentBlockID`, `Encode`/`Decode`) are uninterpreted functions. The fresh server half is a parameter of `Ready`.
- BlockOps.Ready: `GetEncodedSize` is taken to be the length of the encoded buffer, since its definition is not part of this model.
- BlockOps.Get: Go decrypts into a caller-supplied block; the model returns the block in a `Result`.
- Server.BlockServer.Put: the server's own bookkeeping is not part of this model. Any request may fail, as the fault oracle decides, and a successful store or add-reference adds a live reference. A removal drops a block's entry once its last reference goes.
- Server.BlockServer.RemoveBlockReference: the server's reply is not constrained by its state; the oracle decides it.
- The server holds a single folder's references; the per-folder filter of `getAll` is not modelled.
- BlockOps.Get: the fetch is the `serverGet` collaborator of `Config`, and is not tied to what `Server.BlockServer.Put` stored; `BlockOps.GetAfterReady` takes the fetch result as a hypothesis.
- QuotaReclamation.Run: the reclamation engine (its watermarks, scanning and archive/delete calls) is not part of this model. A run is the abstract step "remove exactly the smaller of `maxPerRun` and the number of eligible references". It acts on the reference map directly, is not logged and cannot fail.
- QuotaReclamation.IsRun: assumes a run makes as much progress as its bound allows (it removes the smaller of `maxPerRun` and the number of eligible references, never fewer). The tests observe this of the reclamation engine, whose batching code is not part of this model; `RunShrinksWhenEligible`, `SimpleScenario` and the termination of `RunUntilOneLeft` rest on it.
- QuotaReclamation.RunUntilOneLeft: requires that every reference but at most one is already eligible, as in the test after the clock has moved past `2 * minUnrefAge`.
- The filesystem operations the tests drive (create, remove, write, sync) and the "exactly 4 extra blocks" count: they depend on code that is not part of this model.
- The stalling `BlockOps` wrapper and its channels in the deleted-blocks test: concurrency.
- Util.MakeRandomRequestId: the random read is a parameter (the 16 bytes and the read's error).
- Util.TrimSpace: strings are sequences of code points; invalid UTF-8 byte sequences are not modelled.
- Util.VersionString: `Version` and `DefaultBuild` are defined in files that are not part of this model, so they are parameters.
- The process-wide globals of `client/go/libkb/globals.go`, the paper-key engine of `client/go/engine/paperkey.go` and the test entry point `kbfs/libfuse/test_test.go`: wiring, UI and network orchestration with no data logic of their own.
