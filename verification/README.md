# Verified models of cruller's source maps, module runtime, import sorter and Lambda loop

A Dafny 4.11 project beside the repository. It models six of its components and proves what they
keep on every input and over every run. `dafny verify dfyconfig.toml` checks all of it.

**Source maps** (`packages/bun-error/sourcemap.ts`). `Int32` writes out JavaScript's 32-bit operators
on integers. `Base64Vlq` models the number reader (whose bitwise loop is proved to do base-32
arithmetic as long as the number fits 32 bits) and the encoder of ECMA-426, "Base64 VLQ", with
the alphabet of RFC 4648, section 4. `MappingsText` says what a mappings text means by splitting it
(ECMA-426, "Mappings structure"); `DecodeMappings` is the one-pass decoder on a doubling array, with
the in-place record sort of `LineSort`, proved equal to it; `MappingsAccepted` tells the same meaning
once more, without running values. `Mappings` defines records and their stable order.
`MappingsSeparators` tells what each character does. `MappingsEncoder` has the encoder and the round
trip, `PositionLookup` the binary search, and `SourceMapChain` the chain from written lines to the
position found.

**Module runtime** (`src/runtime.js`). `ModuleInit` models the lazy thunks of `__esm` and
`__commonJS` over arbitrary, possibly cyclic programs, and `ModuleTraces` tells their logs event by
event; `LiveBindings` models the namespace conversions and their caches, and `Decorators` the array of
initializers of the ES decorator engine.

**Explicit disposal** (`src/runtime.bun.js`). `Dispose` models `__using` and the suspending machine of
`__callDispose`, against DisposeResources of the TC39 Explicit Resource Management proposal.

**Import sorter** (`scripts/sort-imports.ts`). `ImportPaths` (segments and alias resolution),
`ImportGroups` (grouping, promotion, merging, sorting; `GroupPlaces` follows each declaration, and
`StableSort` is a stable sort by comparison, in the place of `Array.prototype.sort`), `SortImports`
(collecting declarations, writing the output) and `ProcessFile` (the repeated run). `SortAgain` says when sorting a result again leaves it as it is:
`SameGroups` (groups do not depend on line numbers), `ShownLines` (what shows of a file) and `SortResult`
(the form of a result) prepare it, and `SortAgainInputs` has two files that change.

**ZIP tail reader** (`scripts/binary-size.ts`). `ZipTail` models the reader from the byte buffer on,
with a writer after PKWARE APPNOTE.TXT, sections 4.3.12 and 4.3.16.

**Lambda runtime** (`packages/bun-lambda/runtime.ts`). `LambdaRuntime` is a transition system over the
main loop, its timer, and handlers that keep running after they lost their race, and the same process
on objects: `LambdaServer` with its counters, driven by `Runtime`.

## What the proofs found

- The VLQ reader recovers exactly the numbers of magnitude below 2^30; ECMA-426 allows all 32-bit
  integers (`Base64Vlq.DecodeEncodedVlq`, `Base64Vlq.EncodesStandard`). It reads a sign without
  magnitude, as in the text "B", as 0, where ECMA-426 reads -2^31 (`Base64Vlq.VlqValueExact`,
  `Base64Vlq.SignAlone`).
- A decoded table is sorted exactly if the text behind the last `;` is in order
  (`SourceMapChain.TableSortedExactly`, `SourceMapChain.LastLineUnsorted`).
- A query on a line that a `;` ended is answered from the right record; on the last line it is so if
  no column at or before the query stands behind a greater one. The decoder does produce tables in
  which one does, and the search then goes wrong (`SourceMapChain.QueryOrderedExactly`,
  `SourceMapChain.OutOfOrderDecoded`, `PositionLookup.FoundIsEffective`,
  `PositionLookup.RemapWrongOutOfOrder`, `PositionLookup.RemapWrongBehind`); for some such queries it
  still finds the right one (`PositionLookup.FoundOutOfOrder`).
- `remapPosition` reports the first record of the table on a miss, as it tests for -1 where the search
  returns null, and line 0 and column -1 for a mapping without source. For a query that the table
  orders as above it is right exactly if it screens the query out or a record with a source is in effect
  (`PositionLookup.RemapRightExactly`, `PositionLookup.RemapWrongOnMiss`,
  `PositionLookup.RemapWrongWithoutSource`).
- Two imports of one ES module get different values exactly if the first came while the module's body
  was running and that body has returned since (`ModuleInit.AnswersDifferExactly`,
  `ModuleInit.ReentrantAnswer`).
- In an acyclic graph an importer goes on without a finished dependency exactly if that dependency
  failed before, and this happens: a failed body is not run again, and importing it again returns
  what there is (`ModuleInit.AcyclicInOrder`, `ModuleInit.FailedDependency`).
- `pendingWebSockets` equals the number of open sockets exactly if as many open connections were
  upgraded again as disconnects ended late; one run shows each (`LambdaRuntime.CountersExact`,
  `LambdaRuntime.RepeatedUpgradeMiscounts`, `LambdaRuntime.OverlappingDisconnectsMiscount`).
- `fetch` answers an undefined result with status 101 exactly if some request was upgraded and no
  handler has left `fetch` since: one that timed out before and leaves late takes the upgrade from a
  later request, which gets status 500 while its socket stays (`LambdaRuntime.UpgradedExactly`,
  `LambdaRuntime.UpgradeLost`).
- `__callDispose` differs from the TC39 text where an async declaration falls back to a sync
  `Symbol.dispose`: the code awaits what that method returns and throws its rejection, the proposal
  drops it; and of a method that throws the proposal makes a rejection that it awaits, the code does
  not. It completes as the proposal does exactly if no fallback returns a promise that rejects
  (`Dispose.CompletionConformsExactly`).
- `__callDispose` also awaits once for each `await using` without a value, where the proposal awaits
  once for several, or not at all when a resource was awaited anyway. Calls and awaits come in the
  proposal's order exactly if no fallback throws or rejects and each such entry is disposed of last or
  right before a sync resource, with nothing awaited earlier (`Dispose.EventsConformExactly`,
  `Dispose.FallbackDiffers`, `Dispose.EmptiesDiffer`).
- `__using` refuses a null `Symbol.asyncDispose`, which the TC39 text treats as absent; this is the only
  difference in what is registered (`Dispose.UsingConformsExactly`, `Dispose.NullAsyncDispose`).
- A decorator that throws leaves its context open: its `addInitializer` still works afterwards
  (`Decorators.AddAfterThrow`).
- Alias resolution ends for every name exactly if the aliases can be ranked, and never on a circle
  (`ImportPaths.AcyclicEnds`, `ImportPaths.EndsOnlyRanked`, `ImportPaths.CycleNeverEnds`).
- Promotion visits the groups in order, so a declaration can be promoted again, from group `a` to `a.b` and
  on to `a.b.b` (`ImportGroups.PromotedAgain`).
- Sorting a result again leaves its lines as they are exactly if none of them is removable by then. That
  happens to a declaration of the name `sortImports`, which counts as used beside the marker and as unused
  once the marker is gone; it does not happen if the marker was gone before the last turn
  (`SortAgain.RunAgainExactly`, `SortAgain.RunAgainForGood`, `SortAgainInputs.MarkerCounted`). With
  `--keep-unused`, a declaration that is there twice moves again
  (`SortAgain.RunAgainKeeping`, `SortAgainInputs.RepeatedMoves`).

## Model

| member | source | states |
|---|---|---|
| Base64Vlq.DecodeVLQ | packages/bun-error/sourcemap.ts:54-78 | The loop consumes exactly the leading complete number and returns its value; it fails exactly on an invalid character or at the end of the text |
| Base64Vlq.AccumulateIsPositional | packages/bun-error/sourcemap.ts:69-70 | The steps with bitwise or and shifts modulo 32 equal base-32 positional arithmetic for every digit string whose number fits 32 bits |
| Base64Vlq.VlqValueExact | packages/bun-error/sourcemap.ts:69-77 | For every digit string, of any length, the value is what VLQSignedValue of ECMA-426 gives if and only if the positional number is below 2^31 and is not 1 |
| Base64Vlq.SignAlone | packages/bun-error/sourcemap.ts:77-77 | The text "B", which the code reads as 0 and ECMA-426 as -2^31 |
| Base64Vlq.EncodesStandard | packages/bun-error/sourcemap.ts:54-78 | An encoded integer means itself to ECMA-426 if and only if it fits 32 bits |
| Base64Vlq.DecodeEncodedVlq | packages/bun-error/sourcemap.ts:54-78 | Reading an encoded integer followed by any text takes exactly its digits, and gives the integer back if and only if its magnitude is below 2^30 |
| Base64Vlq.AlphabetIsSource | packages/bun-error/sourcemap.ts:2-5 | The table's ranges are the 64 characters of the source's alphabet string, in order |
| Base64Vlq.DigitsExactly | packages/bun-error/sourcemap.ts:1-5 | A code unit is the digit d exactly if it stands at place d of the alphabet string, and no digit exactly if it stands nowhere there |
| LineSort.SortLine | packages/bun-error/sourcemap.ts:85-111 | The in-place loop changes only the window from generatedLineStart to dataLength and leaves there the insertion sort of its whole records |
| LineSort.OpenHole | packages/bun-error/sourcemap.ts:95-103 | The inner loop moves exactly the records with a greater column one record up |
| Mappings.InsertionSortStable | packages/bun-error/sourcemap.ts:85-111 | The sort is in column order and keeps, for every column, the sequence of records with that column |
| Mappings.StableSortUnique | packages/bun-error/sourcemap.ts:85-111 | Only one sequence is a stable sort of a line, so the previous row determines the result |
| Mappings.StableSortPermutes | packages/bun-error/sourcemap.ts:85-111 | A stable sort is a permutation of whole records |
| Mappings.SortOrdered | packages/bun-error/sourcemap.ts:87-87 | Skipping the sort is sound: an ordered line is its own sort |
| DecodeMappings.Append | packages/bun-error/sourcemap.ts:185-203 | One doubling always makes room; the records before stay, and the new one is stored as 32-bit integers behind them |
| DecodeMappings.ReadOneMapping | packages/bun-error/sourcemap.ts:127-183 | The hand-written branches read the next segment and its comma, and succeed with the running values exactly if the segment read on its own does |
| DecodeMappings.DecodedOneMore | packages/bun-error/sourcemap.ts:128-131 | The flag needToSortGeneratedColumns is set exactly if the current line's columns have stepped back |
| DecodeMappings.DecodeMappings | packages/bun-error/sourcemap.ts:35-207 | For every text and source count, decoding succeeds exactly if the split-based reading does, and the table holds its records, each ended line sorted if its columns step back |
| MappingsSeparators.SemicolonEndsLine | packages/bun-error/sourcemap.ts:83-119 | What stands in front of the first semicolon is read as the first line; the rest goes on with the next line, from column 0, with the other running values as they are |
| MappingsSeparators.LinesAreSemicolons | packages/bun-error/sourcemap.ts:83-119 | An accepted text has one line more than semicolons |
| MappingsSeparators.CommaGoesOn | packages/bun-error/sourcemap.ts:121-125 | Behind a comma a segment goes on in the same line, from the values that the one before left |
| MappingsSeparators.OthersRefused | packages/bun-error/sourcemap.ts:59-66 | Any other character that is no digit makes the text invalid |
| MappingsSeparators.KnownText | packages/bun-error/sourcemap.ts:35-207 | What the text "ACEGI;A,C" means, record by record |
| MappingsSeparators.KnownTable | packages/bun-error/sourcemap.ts:35-207 | The decoder makes of that text a table of these 18 numbers |
| MappingsText.ReadRestSegment | packages/bun-error/sourcemap.ts:127-183 | Reading from the middle of a line is reading the next segment and then the rest |
| MappingsText.NextField | packages/bun-error/sourcemap.ts:54-78 | A number never reaches over a separator, so numbers read from the text are the fields of the segment |
| MappingsAccepted.AcceptedExactly | packages/bun-error/sourcemap.ts:80-206 | A text is accepted if and only if every non-empty segment has one, four or five complete numbers, all sums up to it are non-negative and the source sum is below the count; the records are these sums |
| MappingsEncoder.ReadWellFormed | packages/bun-error/sourcemap.ts:127-202 | Every record of an accepted text is on its line, has column at least 0, all of its source triple missing or valid, and no name without a source |
| MappingsEncoder.ReadOpen | packages/bun-error/sourcemap.ts:35-207 | For all lists of well-formed lines, the last without a semicolon, reading the encoded text gives the lines back if and only if every difference has magnitude below 2^30 |
| MappingsEncoder.ReadEncoded | packages/bun-error/sourcemap.ts:35-207 | The same with a semicolon behind every line |
| MappingsEncoder.SmallLinesFit | packages/bun-error/sourcemap.ts:35-207 | Fields below 2^30 are enough for that |
| MappingsEncoder.ReadEncodedLine | packages/bun-error/sourcemap.ts:120-182 | The same for one line that any text or nothing follows, with the fields carried on |
| PositionLookup.IndexOfMapping | packages/bun-error/sourcemap.ts:304-331 | On every table the loop returns the offset that halving the records finds; where the records at or before the query stand in front, that of the linear scan, and null exactly if the scan finds none |
| PositionLookup.FoundIsScan | packages/bun-error/sourcemap.ts:304-331 | Halving refines the linear scan for every query whose records stand in front of the others |
| PositionLookup.FoundIsEffective | packages/bun-error/sourcemap.ts:304-331 | If the queried line is in column order up to the query, the search finds the record in effect, and null exactly if there is none |
| PositionLookup.LinearScanFinds | packages/bun-error/sourcemap.ts:304-331 | The scan finds the last record on the line with column at most the query |
| PositionLookup.RemapPosition | packages/bun-error/sourcemap.ts:209-228 | On every table: null for an empty table or negative query, the line + 1 and column of the record found, and on a miss those of the first record |
| PositionLookup.RemapRightExactly | packages/bun-error/sourcemap.ts:222-227 | For a query that the table orders, the answer is the original position of the record in effect if and only if the query is screened out or a record with a source is in effect |
| PositionLookup.RemapRightSorted | packages/bun-error/sourcemap.ts:222-227 | So on a sorted table for every query |
| PositionLookup.RemapWrongOutOfOrder | packages/bun-error/sourcemap.ts:310-320 | A line with columns 1, 5, 3 and a query that misses the record in effect |
| PositionLookup.RemapWrongBehind | packages/bun-error/sourcemap.ts:310-320 | A line with columns 3, 1 where the search is the linear scan and still finds the wrong record |
| PositionLookup.FoundOutOfOrder | packages/bun-error/sourcemap.ts:310-320 | With the columns 5, 1 a query at column 3 is not ordered, and the search still finds the record in effect |
| PositionLookup.RemapWrongOnMiss | packages/bun-error/sourcemap.ts:224-227 | A table of two records and a query without mapping that is answered with the position of the first |
| PositionLookup.MissIsFirst | packages/bun-error/sourcemap.ts:224-227 | On a table that orders the query, a miss is always answered with the first record |
| PositionLookup.RemapWrongWithoutSource | packages/bun-error/sourcemap.ts:227-227 | A mapping without source, as the text "A" has it, that is answered with line 0 and column -1 |
| SourceMapChain.FinishIsStableSort | packages/bun-error/sourcemap.ts:84-119 | A line that a semicolon ends comes out as the stable sort of the line as written |
| SourceMapChain.TableSortedExactly | packages/bun-error/sourcemap.ts:84-119 | The decoded table is sorted by line and column if and only if the last line is in order |
| SourceMapChain.QueryOrderedExactly | packages/bun-error/sourcemap.ts:84-119 | A decoded table orders every query on a line that a semicolon ended, and one on the last line if and only if no column at or before it stands behind a greater one |
| SourceMapChain.OutOfOrderDecoded | packages/bun-error/sourcemap.ts:84-87 | A text whose decoded table has the columns 1, 5, 3 on its only line |
| SourceMapChain.LastLineUnsorted | packages/bun-error/sourcemap.ts:84-87 | Two out-of-order columns stay so at the end of the text and are sorted before a semicolon |
| SourceMapChain.TableWellFormed | packages/bun-error/sourcemap.ts:185-206 | Every record of a decoded table is well formed and generated lines never step back |
| SourceMapChain.EncodeDecodeFind | packages/bun-error/sourcemap.ts:35-207 | Encoding any lines, decoding and searching finds the mapping in effect in the lines as written, and null exactly if there is none; on a last line without semicolon, if it is ordered up to the query |
| SourceMapChain.SortedInEffect | packages/bun-error/sourcemap.ts:304-331 | The last record at or before the column in the sorted line is the furthest right, latest written mapping of the line |
| ModuleInit.Loader.CallThunk | src/runtime.js:105-105 | Calling a thunk changes the captured state and returns as the call function says, whatever the program |
| ModuleInit.Call | src/runtime.js:316-316 | Evaluation of any finite, possibly cyclic program terminates: started thunks only grow and the called one is among them |
| ModuleTraces.EventsFollow | src/runtime.js:105-316 | Over any run, every event is one that may follow those in front of it: told by the program and the log alone, which module a body starts or goes on after, with which value, where an exception goes, and when a body ends |
| ModuleTraces.UncaughtEnds | src/runtime.js:316-316 | A body goes on after an exception only where it catches one |
| ModuleTraces.BodiesFollowed | src/runtime.js:105-316 | What a body has done are its steps, in order; a body that finished has passed all of them, each assignment to its exports included |
| ModuleTraces.CallThrowsExactly | src/runtime.js:316-316 | If none of the modules that a call starts catches, the call throws if and only if one of them fails |
| ModuleTraces.ThrownThrough | src/runtime.js:316-316 | A module that throws and its importer: both fail, and the call throws |
| ModuleInit.CallStartsOnce | src/runtime.js:316-316 | No call starts a body that was started before, under re-entry, throws and catches alike |
| ModuleInit.CallRunsWhole | src/runtime.js:316-316 | With cycles, throws and catches, every body that a call starts has ended when it returns, finished or failed but not both; modules started before keep their state |
| ModuleInit.CalledForGood | src/runtime.js:105-105 | Unless called while its own body runs, a thunk answers the same for good: a later call runs nothing and returns what the first returned; after a throw, undefined or the module.exports of that moment |
| ModuleInit.AnswersDifferExactly | src/runtime.js:105-105 | Over any run, two imports of one module get different values if and only if, for an ES module, its body was running at the first and has returned by the second, and for a CommonJS module, its exports were replaced by others in between |
| ModuleInit.ReentrantAnswer | src/runtime.js:316-316 | Two modules that import each other: the inner call gets undefined, a later one the result |
| ModuleInit.CallRunsReachable | src/runtime.js:316-316 | Without throws, in any graph, a top-level call runs exactly the modules reachable from it that had not run, and all of them finish |
| ModuleInit.AcyclicInOrder | src/runtime.js:316-316 | In an acyclic graph, whatever throws, a body goes on after an import without the import having finished if and only if it failed before; the called module finishes if and only if the call returns |
| ModuleInit.FailedDependency | src/runtime.js:316-316 | An acyclic program whose importer catches a failed import, imports it again, and goes on although it never finishes |
| ModuleInit.AcyclicFinishedFirst | src/runtime.js:316-316 | Without throws, every import has finished before its importer goes on |
| LiveBindings.ModuleRuntime.BindKeys | src/runtime.js:72-77 | The loop binds exactly the names that the target lacks and leaves all else as it was |
| LiveBindings.ModuleRuntime.ReExport | src/runtime.js:27-46 | Both targets: every missing name but the default is bound, earlier definitions win, a default is never added |
| LiveBindings.ModuleRuntime.ToESM | src/runtime.js:57-81 | One view for each object and mode: from the cache, or new with all names bound and a constant default where the mode asks for it |
| LiveBindings.ModuleRuntime.ToCommonJS | src/runtime.js:86-100 | One view per module, marked as an ES module, with exactly the other names of the module, all bound |
| LiveBindings.DefaultOfView | src/runtime.js:55-66 | What reads as `default` on a new view: the module itself in node mode or if its `__esModule` is falsy, else its own default |
| LiveBindings.NamesOfViews | src/runtime.js:32-100 | A CommonJS view reads `__esModule` as true; a re-export adds every name of the module but `default` |
| LiveBindings.ModuleRuntime.Get | src/runtime.js:18-20 | Following getters ends, also where modules re-export each other, and gives the value of the source |
| LiveBindings.BindingStaysLive | src/runtime.js:18-20 | In every later state a bound name reads as the source's current value |
| LiveBindings.AssignmentSeen | src/runtime.js:18-20 | An assignment to the source is read through the view |
| LiveBindings.ConvertedOnce | src/runtime.js:57-81 | After any run of creations, assignments, re-exports and conversions, converting a module object again in the same mode changes nothing and returns the same view; the other mode gives another |
| LiveBindings.ConvertedLive | src/runtime.js:72-77 | After any such run, each name that a new view has bound reads as the module's value of that moment |
| LiveBindings.BoundForGood | src/runtime.js:18-20 | After any such run, every binding there was before it reads as its source |
| LiveBindings.AssignKeeps | src/runtime.js:66-66 | Assignments keep the caches and all bindings and constants |
| Decorators.Decorating.DecorateElement | src/runtime.js:246-314 | The loop from the last decorator to the first leaves the array and the result that the right fold over the decorators gives, also when one throws or returns a wrong value |
| Decorators.Decorating.ApplyDecorator | src/runtime.js:279-307 | One turn: the decorator's context is the only open one, and it is closed afterwards if and only if the decorator did not throw |
| Decorators.Decorating.MakeAdds | src/runtime.js:234-239 | Of all calls of addInitializer only those of the running decorator's own context append, in order |
| Decorators.Decorating.AddInitializer | src/runtime.js:238-238 | Appends exactly if the context is not done and the argument is callable; otherwise nothing changes |
| Decorators.AddAfterThrow | src/runtime.js:234-239 | The addInitializer of a decorator that threw, called afterwards, still appends |
| Decorators.Decorating.RunInitializers | src/runtime.js:241-245 | Calls the functions of the selected list in order; an even flag threads the value, an odd one leaves it |
| Decorators.FieldInitsInOrder | src/runtime.js:279-301 | A field's initializers end up in the order of its decorators, though these are applied in reverse |
| Decorators.MethodComposed | src/runtime.js:279-301 | A method or class becomes d1(d2(...dm(f))), undefined results passing on what was given |
| Decorators.AccessorComposed | src/runtime.js:302-307 | An accessor's getter and setter are those of the first decorator that returned one, its init functions in decorator order |
| Decorators.ExtrasAreAllAdds | src/runtime.js:238-238 | The extra initializers are those added by the last decorator, then the one before, and so on |
| Decorators.ErrorStays | src/runtime.js:279-307 | After an error the decorators in front do not take part |
| Decorators.NoErrorExactly | src/runtime.js:300-307 | There is no error if and only if every decorator returns undefined, a function, or for an accessor an object of such parts |
| Decorators.ErrorExactly | src/runtime.js:300-307 | Else the error is that of the last decorator that does not: what it threw, or a TypeError |
| Decorators.ArrayShape | src/runtime.js:231-258 | After any sequence of elements slot 3 keeps the metadata, the length is 4 plus 2 per accessor or field, and slots 0 to 2 hold the extras of the elements that share them, in order |
| Decorators.SharedSlots | src/runtime.js:254-258 | By the bits of the flags: slot 0 holds the extras of the class, slot 1 those of static methods, getters and setters, slot 2 those of the others |
| Decorators.RunShared | src/runtime.js:245-249 | The flags 1, 3 and 5 call exactly these three lists |
| Decorators.OwnedSlots | src/runtime.js:255-258 | The n-th accessor or field owns slots 4 + 2n and 5 + 2n whatever elements follow |
| Decorators.OwnInitsByFlags | src/runtime.js:254-307 | By the bits of the flags: the n-th field or accessor finds in slot 4 + 2n what its decorators returned, in their order |
| Decorators.InitializeField | src/runtime.js:241-258 | Flags 8 + 4n and 11 + 4n run exactly the n-th element's initializers and extra initializers |
| Dispose.DisposeStack.Using | src/runtime.bun.js:4-17 | Which values are registered, with which method, and which type error leaves the stack as it was |
| Dispose.UsingConformsExactly | src/runtime.bun.js:8-11 | Registration agrees with AddDisposableResource and GetDisposeMethod of the proposal if and only if no async declaration meets a null async method beside a callable sync one |
| Dispose.NullAsyncDispose | src/runtime.bun.js:9-11 | A value that the proposal registers and the code refuses |
| Dispose.Disposer.RunNext | src/runtime.bun.js:24-34 | The loop runs to the first entry that awaits or to the end, as the functional step says |
| Dispose.Disposer.Settle | src/runtime.bun.js:28-28 | A settled promise resumes the loop, a rejected one after folding its reason |
| Dispose.ResumeKeeps | src/runtime.bun.js:19-36 | Every resumption keeps the final completion and the whole sequence of calls and awaits |
| Dispose.DisposalFolds | src/runtime.bun.js:19-36 | For any stack and outcomes the run ends with the fold of all errors, each entry called once, last in first out, and each async one awaited before the next call |
| Dispose.CompletionConformsExactly | src/runtime.bun.js:26-28 | From any completion on, the run completes as DisposeResources of the proposal does if and only if no sync fallback of an async declaration returns a promise that rejects |
| Dispose.EventsConformExactly | src/runtime.bun.js:24-33 | Its calls and awaits are those of DisposeResources, in order, if and only if no such fallback throws or rejects, and every async entry without value comes last or right before a sync one, with nothing awaited before it |
| Dispose.FallbackDiffers | src/runtime.bun.js:27-28 | One fallback that rejects and one that throws, with what the code and the proposal do |
| Dispose.EmptiesDiffer | src/runtime.bun.js:27-28 | Async declarations without value: two in a row, one behind and one before an awaited resource |
| Dispose.CompletionIsChain | src/runtime.bun.js:20-23 | The completion is the nest of SuppressedErrors over all errors and the initial one, or normal if there are none |
| Dispose.SuspendsOncePerAwait | src/runtime.bun.js:26-28 | It suspends once for each async entry whose dispose call does not throw |
| ImportPaths.PathsExactly | scripts/sort-imports.ts:121-152 | A value parses to segments if and only if these, joined by dots, spell it, each is a name, `@This()` or begins like an import, and only a first one that is an import up to its first bracket has dots in it; to null exactly if no such segments spell it |
| ImportPaths.ResolveExpands | scripts/sort-imports.ts:155-176 | Resolving is rewriting the first segment until it is a root; null exactly if the chain ends at an unknown name or a value that is no path |
| ImportPaths.NamesResolve | scripts/sort-imports.ts:155-176 | An import or `@This()` resolves to itself, a name to what its declared path resolves to, an unknown name or one without path to null |
| ImportPaths.AcyclicEnds | scripts/sort-imports.ts:155-176 | On an alias table without cycles the recursion ends for every name |
| ImportPaths.EndsOnlyRanked | scripts/sort-imports.ts:155-176 | It ends for every name only if the aliases can be ranked |
| ImportPaths.CycleNeverEnds | scripts/sort-imports.ts:155-176 | For two names that stand for each other it never ends |
| ImportPaths.JoinPrefixShorter | scripts/sort-imports.ts:227-231 | A proper ancestor's key is shorter, so no group is its own ancestor |
| ImportGroups.GroupTable.GroupDeclarationsByImportPath | scripts/sort-imports.ts:184-218 | The groups hold exactly the declarations that resolve, each once, under the key that with its last segment spells the expanded path |
| ImportGroups.GroupTable.PromoteGroup | scripts/sort-imports.ts:246-258 | The items of a group without child group stay in order; the others are in front of their child group, the last one first |
| ImportGroups.GroupTable.PromoteItemsWithChildGroups | scripts/sort-imports.ts:245-259 | Promotion is that for each group in order, and no declaration is lost or doubled |
| ImportGroups.GroupTable.MergeGroup | scripts/sort-imports.ts:226-237 | A one-item group goes to the end of its nearest ancestor group, if there is one |
| ImportGroups.GroupTable.MergePass | scripts/sort-imports.ts:225-240 | A pass that changes anything removes a group; one that does not leaves no mergeable group |
| ImportGroups.GroupTable.MergeSingleItemGroups | scripts/sort-imports.ts:221-242 | Terminates; at exit no one-item group has a surviving ancestor, declarations are conserved, and groups only gain items behind |
| ImportGroups.AncestorIsNearest | scripts/sort-imports.ts:227-236 | The ancestor found is a group, a proper prefix, and the nearest |
| ImportGroups.GroupTable.SortGroupsAndDeclarations | scripts/sort-imports.ts:262-277 | Each group comes out in order by path length and key, declarations that compare equal as they stood, and the group keys in order; nothing is lost |
| ImportGroups.ItemsInOrder | scripts/sort-imports.ts:262-270 | In a sorted group shorter paths come first, and of one length smaller names |
| ImportGroups.GroupsUnder | scripts/sort-imports.ts:184-277 | After grouping, promotion, merging and sorting every declaration is in a group whose key begins its path, the last segment repeated as often as it was promoted again |
| ImportGroups.PromotedAgain | scripts/sort-imports.ts:245-259 | A declaration whose child group comes later goes on to that group's child group of the same last segment |
| GroupPlaces.PromotedWhere | scripts/sort-imports.ts:245-259 | After promotion a group holds exactly the declarations that land there, followed from group to child group as their turns come |
| GroupPlaces.LeavesExactly | scripts/sort-imports.ts:245-259 | A declaration leaves its group if and only if it has a child group |
| GroupPlaces.GroupsWhere | scripts/sort-imports.ts:178-277 | Of the groups written out, the one a declaration lands in holds it; another holds it only if that one was merged away |
| GroupPlaces.LargeGroupsStay | scripts/sort-imports.ts:221-242 | A group with two items after promotion is never merged away |
| StableSort.SortByStable | scripts/sort-imports.ts:262-277 | For every total preorder the sort is an ordered permutation that keeps the sequence of elements that compare equal |
| StableSort.StringLeExactly | scripts/sort-imports.ts:268-276 | A text comes before its continuations and else before those with a greater character where they first differ |
| SortImports.ParseDeclarations | scripts/sort-imports.ts:54-119 | Looking at the lines in their stable order: of the eligible lines with one name the first is taken, later ones and unused ones are to be removed |
| SortImports.EligibleLines | scripts/sort-imports.ts:69-107 | Which lines are sorted, told by their characters: not the marker, not under a doc comment, public ones only if included, private ones only if used |
| SortImports.GenerateSortedOutput | scripts/sort-imports.ts:280-298 | The output is the input with the grouped lines marked, then the groups with a blank line in front of each |
| SortImports.BlocksSpaced | scripts/sort-imports.ts:284-288 | The blocks begin with a blank line, have no two in a row and do not end with one, however many groups are empty |
| SortImports.OutputKeepsLines | scripts/sort-imports.ts:280-298 | Without markers and blank lines the output is a permutation of the input |
| ProcessFile.MoveThisUp | scripts/sort-imports.ts:347-375 | The This declaration goes right behind the leading file comments, unless only comments stand in front of it; all other lines stay |
| ProcessFile.SortOnce | scripts/sort-imports.ts:328-376 | A turn takes from the lines exactly the markers and the removable ones (unused declarations and all but the first of each repeated name). Its output, to the letter: the input with the lines in the blocks marked, then the blocks, which hold just the first line of each name whose path resolves and that is not the This declaration, each once, with keys and items in order and no one-item group below another; the removed lines are marked, and the first `@This()` line is moved up unless only comments stand above it. It repeats if and only if it removed something |
| ProcessFile.ProcessLines | scripts/sort-imports.ts:324-377 | The loop terminates after turns that each do just that; all but the last removed something, and the last read a file with nothing to remove |
| ProcessFile.TurnsRemove | scripts/sort-imports.ts:324-377 | A line that the result has fewer times than the file is a marker or was removable in the file of some turn, and no line is there more often |
| ProcessFile.BlocksAreRight | scripts/sort-imports.ts:335-340 | Groups whose contents are the declarations that resolve hold just the first line of each name but the This declaration, each once under its expanded path |
| SortResult.SortableStays | scripts/sort-imports.ts:328-376 | A line to be sorted shows undocumented in the result of a turn that removes nothing if and only if it does in the file |
| SortResult.ResultForm | scripts/sort-imports.ts:328-376 | Such a result is the lines that do not move, the This declaration on top, followed by the blocks |
| SameGroups.SameGroupsOf | scripts/sort-imports.ts:178-277 | The groups depend on what the declarations say and on their order, not on their line numbers |
| SortAgain.RunAgainExactly | scripts/sort-imports.ts:312-399 | After whole runs, sorting a file that shows the lines of a result shows the same lines in the same order, if and only if no line of it is removable |
| SortAgain.RunAgainForGood | scripts/sort-imports.ts:312-399 | That is so for any file, if the test for unused names depends on the lines that show and the last turn read no marker |
| SortAgain.RunAgainKeeping | scripts/sort-imports.ts:312-399 | Where unused lines are kept, it is so if no line to be sorted was there twice |
| SortAgain.MarkersGo | scripts/sort-imports.ts:70-73 | No turn leaves a line `// @sortImports` |
| SortAgainInputs.MarkerCounted | scripts/sort-imports.ts:89-99 | Marker and one declaration of `sortImports`: the first run keeps the declaration and the second removes it |
| SortAgainInputs.RepeatedMoves | scripts/sort-imports.ts:105-116 | Two equal declarations in front of another line, unused lines kept: the first run moves one behind it, the second run the other |
| ZipTail.ZipBinarySize | scripts/binary-size.ts:327-350 | On any bytes every read is in range and the loops end; the result is that of walking from the last end record |
| ZipTail.WalkWritten | scripts/binary-size.ts:339-347 | Walking a directory written as the format says gives the largest size among its non-directory entries |
| ZipTail.DirectoryNames | scripts/binary-size.ts:345-345 | A name is that of a directory exactly if its last byte is a slash |
| ZipTail.EndRecordsAre | scripts/binary-size.ts:329-334 | An end record is the four bytes PK 5 6 with at least 18 and at most 18 + 65535 bytes behind them |
| ZipTail.Signatures | scripts/binary-size.ts:331-340 | What is written begins with PK 1 2 and PK 5 6, as the format says |
| ZipTail.ReadWritten | scripts/binary-size.ts:327-350 | For any such directory inside the tail the reader returns that size, or reports that there is none above 0 |
| LambdaRuntime.StepKeeps | packages/bun-lambda/runtime.ts:500-648 | Every step of every interleaving keeps posts matched to invocations and both counters right |
| LambdaRuntime.OnePostEach | packages/bun-lambda/runtime.ts:807-819 | Each received invocation gets exactly one post under its own id, and TimeoutError exactly if the timer won |
| LambdaRuntime.PostsTold | packages/bun-lambda/runtime.ts:500-517 | Over every run, the i-th post goes out under the id of the i-th invocation: a timeout exactly if the timer fired on it, a response only if its handler returned, a request error only if something in it threw |
| LambdaRuntime.RunTold | packages/bun-lambda/runtime.ts:500-540 | The handlers are those of the invocations in order, and each has ended with an error exactly if its event was malformed, a socket callback threw or reading its response did |
| LambdaRuntime.FetchLeaves | packages/bun-lambda/runtime.ts:601-625 | `fetch` is left with status 101 exactly if the user returned it or the upgrade slot was set, and the error callback is asked exactly if there is one and the user gave no response |
| LambdaRuntime.FetchedExactly | packages/bun-lambda/runtime.ts:520-531 | An event goes to `fetch` exactly if it is a request, and then counts as pending |
| LambdaRuntime.CallbackExactly | packages/bun-lambda/runtime.ts:543-570 | Another socket event goes to the user exactly if its socket is open and there is a callback for it |
| LambdaRuntime.SocketsStep | packages/bun-lambda/runtime.ts:566-643 | A socket is open from its upgrade until a disconnect of its connection ends |
| LambdaRuntime.CountersExact | packages/bun-lambda/runtime.ts:601-648 | pendingRequests counts the handlers inside fetch; pendingWebSockets counts the sockets exactly if repeated upgrades and late disconnects balance, so always in a careful run; web socket events that pass for HTTP events are included |
| LambdaRuntime.CarefulStep | packages/bun-lambda/runtime.ts:566-576 | If no open connection is upgraded again and no disconnect arrives while another of its connection is unfinished, a connection being closed is open and closed by one handler only |
| LambdaRuntime.RepeatedUpgradeMiscounts | packages/bun-lambda/runtime.ts:642-643 | A CONNECT request upgraded twice by its fetch is counted twice |
| LambdaRuntime.OverlappingDisconnectsMiscount | packages/bun-lambda/runtime.ts:566-576 | Two disconnects of one connection whose close callbacks overlap after a timeout leave the counter at -1 |
| LambdaRuntime.UpgradedExactly | packages/bun-lambda/runtime.ts:601-625 | Over every run, a fetch that returns undefined yields status 101 if and only if some request was upgraded and no handler has left fetch since |
| LambdaRuntime.UpgradeLost | packages/bun-lambda/runtime.ts:608-625 | A request that timed out leaves fetch after a later one was upgraded, which then gets status 500 while its socket stays |
| LambdaRuntime.Runtime.Perform | packages/bun-lambda/runtime.ts:500-648 | On the objects, each step changes the server and the handlers as the transition system says and keeps its invariant |
| LambdaRuntime.Runtime.Execute | packages/bun-lambda/runtime.ts:500-517 | Over a whole run of the objects: one post per invocation under its own id, a timeout exactly if the timer fired on it, a response only if its handler returned and a request error only if it threw, and both counters right |

## Left out

- Source maps: the running values are unbounded integers, where the source's doubles round beyond 2^53; stored values are reduced to 32 bits as the typed array does. A buffer too large to allocate is not modelled.
- Source maps: query lines and columns are integers; a fractional query is not modelled. JSON shape checks, error texts, and fetching and batching of maps are not part of this model.
- Module runtime: prototypes, symbols, enumerability, property deletion, private members, names of functions, `access` objects of decorator contexts, `__export`, `__merge`, legacy decorators and metadata inheritance.
- Decorators.Decorating.DecorateElement: is for a class whose evaluation has not failed so far, as the source stops at the first error; decorators are functions of what they are given, and descriptors are reduced to the function or pair that is decorated.
- Dispose: each entry carries the outcome of its dispose call and of its promise; property getters that throw and the order of unrelated promise jobs are not modelled.
- Import sorter: the declaration pattern and the unused-name test are given as functions; it is required that the pattern matches neither an empty line nor a comment nor the deletion mark, and that the aliases to be sorted do not run in a circle (there the recursion overflows the stack with a RangeError, and the program counts the file as failed). Path normalisation and the final whitespace cleanup are not modelled; a file is its list of lines.
- SortAgain.RunAgainExactly: is about the lines that show, each with whether a doc comment stands right above it; blank lines and deletion marks may differ, so it covers a cleanup that does not bring a doc comment and a declaration together.
- SortAgain.RunAgainKeeping: its condition is sufficient only; a repeated line that stands right in front of its block moves without being seen.
- Import sorter: strings are compared by code points where the program compares UTF-16 code units.
- ZIP reader: HTTP requests; ZIP64 records.
- Lambda runtime: requests, event formats, bodies and socket sends are reduced to the steps and outcomes they lead to; logging, reload and init are not modelled. A post that is refused ends the process.
