# A verified model of opencode-rs

opencode-rs is a Rust port of the opencode agent. This project models the algorithms and small state
machines in it that carry more than plumbing, and proves what they are for. `dafny verify
dfyconfig.toml` checks everything.

| files | what they model |
|---|---|
| `Patch`, `PatchText` | applying a unified diff to a vector of lines in place, and reading the diff's text |
| `Plist`, `PlistTheorems`, `PlistElements`, `PlistExact`, `Decimal` | the recursive-descent reader of XML property lists, and integer texts |
| `StableStringify`, `StableStringifyTheorems`, `JsonText`, `RegistrationKeys` | canonical JSON text as an identity key |
| `Glob`, `GlobScan` | wildcards by dynamic programming, brace expansion, and the `**` walk over a directory tree |
| `Sse`, `SseTheorems`, `SseCuts`, `SseEvents`, `SseEnds` | the incremental decoder of server-sent events (WHATWG HTML Standard, section 9.2) |
| `DirectoryCache`, `DirectoryCacheRuns`, `DirectoryCacheSharing` | the snapshot cache under interleaved `get` and `refresh` |
| `ToolCalls`, `ShellOutput`, `IdleWaiters`, `IdleProgress` | the event subscription: tool-call notifications, output deduplication, releasing prompts |
| `SessionList`, `SessionPages` | session listing and its cursor protocol |
| `Merge` | deep merge of configuration layers, and joining their lists |
| `ModelSelection`, `ModelOptions` | printing, offering and parsing model ids |
| `Identifier` | ordered identifiers with their 48-bit bound |
| `RunPool` | a worker pool over one iterator |
| `Text`, `Wrappers` | string operations and result types shared by the others |

Code that changes state is a class or a method with loops, proved equal to a specification function or
to a relation; the theorems are then about that function, over every input or every run. Concurrent code
is a state machine whose steps are the stretches between awaits and lock acquisitions; clocks, loads,
requests and timeouts are arbitrary inputs.

## Where the code differs from what it says

- Server-sent events: the module comment (crates/oc-client/src/sse.rs:5) says a carriage return at the
  end of a chunk is kept across the boundary. It is kept, but never normalised with the line feed that
  follows (crates/oc-client/src/sse.rs:67-76). A stream may be cut after a prefix, whatever
  follows, exactly when the prefix does not end in a carriage return (`SseCuts.SafeCutIff`);
  `SseTheorems.SplitCrLfDiverges` shows the lost event boundary.
- Directory cache: the comment (crates/oc-acp/src/directory.rs:182-183) promises one shared load. The slot
  is released before the load (crates/oc-acp/src/directory.rs:186-189): a `get` starts a load of its own
  exactly when nothing has been written to its slot (`DirectoryCacheSharing.OwnLoadIff`), so loads run
  side by side (`LoadsNotShared`). It also promises that a failure evicts the cache entry, and what goes is
  whatever entry the directory has by then: `EvictionRemovesIff` says exactly when that is a snapshot,
  and `LeftAloneRemovesNothing` when it never is.
- Scan: the comment says files (crates/oc-config/src/glob.rs:61), but a directory that matches the whole
  pattern is returned too; the model does the same. The names a final `**` takes are those of
  directories (`GlobScan.FinalGlobstar`).
- Session cursors: the time of the last entry is cast to an unsigned number
  (crates/oc-acp/src/service.rs:434-438), so a cursor cannot say a negative time. The pages are disjoint
  exactly when no full page ends at one (`SessionPages.FollowingCursors`), and the cursors never end
  exactly when more than a page of sessions has one (`SessionPages.EndsIffFewNegatives`). Entries that
  share the last time of a full page are not shown (`SessionPages.MissedExactly`).
- Model options: the current value of a model whose default variant is picked or fallen back on is not among the options,
  unless another choice has its text (`ModelOptions.CurrentOfferedIff`).
- Unified diffs: a start of 0 counts as 1, and a start too far for `isize` becomes negative and is clamped
  to the first line (crates/oc-acp/src/permission.rs:456-458). A hunk that starts past the end with an
  added line, but not that far, makes the vector's `insert` panic instead of refusing
  (`Patch.PatchPanicsIff`).
- Worker pool: a concurrency below one resolves to an empty list without running any task
  (`RunPool.EndsComplete`).
- Identifiers: "monotonically increasing" (crates/oc-command/src/id.rs:1) holds within a window of 2^36
  milliseconds and fails at its end; `Identifier.DigitsInOrderIff` says exactly for which two calls.
- Shell output: snapshots are kept by call alone (crates/oc-acp/src/event.rs:457), so output goes missing
  exactly when a call may belong to two sessions (`ShellOutput.DedupUnnoticedIff`).

## Model

| member | source | states |
|---|---|---|
| `Patch.ApplyPatch` | crates/oc-acp/src/permission.rs:444-491 | the in-place edit of the line vector, hunk by hunk with its running offset and the `isize` casts of its places, is the run of `RunHunks`; no hunks means refusal |
| `Patch.HunkReplaces` | crates/oc-acp/src/permission.rs:458-478 | a hunk at any place replaces exactly its old side by its new side and leaves what is before and after it alone, or is refused when its old side is not there |
| `Patch.PanicsExactly` | crates/oc-acp/src/permission.rs:472-475 | on any vector, at any position and for any hunk, the insertion index is illegal exactly when the hunk starts past the end with an added line |
| `Patch.PatchPanicsIff` | crates/oc-acp/src/permission.rs:453-485 | for every original and every patch memory can hold, with any `usize` starts: the edit panics if and only if some hunk, once those before it have applied, starts with an added line past the end of the original, and not so far that its place wraps around in `isize` |
| `Patch.CastsSigned` | crates/oc-acp/src/permission.rs:456 | the cast of a `usize` reads its 64 bits as a signed number |
| `Patch.LinesConserved` | crates/oc-acp/src/permission.rs:453-485 | whatever the hunk and wherever it lands, applying it changes the number of lines by additions less removals |
| `Patch.PatchConservesLines` | crates/oc-acp/src/permission.rs:453-485 | the same for every patch, well placed or not |
| `Patch.ZeroIsOne` | crates/oc-acp/src/permission.rs:456 | at any offset and anywhere in a patch, a start of 0 applies as a start of 1 does |
| `Patch.HunkAppliesAt` | crates/oc-acp/src/permission.rs:456-485 | a hunk that starts at line k + 1 is tried at line k moved by the offset, and nowhere else; what follows runs with the net change added to the offset |
| `Patch.NewFile` | crates/oc-acp/src/permission.rs:444-491 | the diff of a new file, a hunk from 0 of added lines on nothing, gives exactly its lines |
| `Patch.PatchIsSplice` | crates/oc-acp/src/permission.rs:444-491 | for every original and every patch in order and in range: the edit with the running offset is the declarative splice of the original if every old side matches, a refusal otherwise, and never a panic |
| `Patch.NeverClamped` | crates/oc-acp/src/permission.rs:456-460 | on a well placed patch every line of every hunk that is reached has its position between 0 and the length of the vector: the clamp never fires and every index is legal |
| `Patch.PatchThenReverse` | crates/oc-acp/src/permission.rs:453-485 | the reversed patch, with starts moved by the accumulated net change, gives back the original lines of every patch that applies |
| `Patch.RunReverse` | crates/oc-acp/src/permission.rs:453-485 | the same from the middle of a patch: what is before the cursor is already restored |
| `PatchText.ParsePatch` | crates/oc-acp/src/permission.rs:512-565 | the loop over the raw lines, with its current hunk and its marker flag, is the line-by-line reader `ReadLines` |
| `PatchText.HeaderRoundTrip` | crates/oc-acp/src/permission.rs:568-577 | every start that fits a `usize` is read back from its header, whatever white space and dashes precede it, however it is spelled (zeros, a plus sign), and whatever follows the old range |
| `PatchText.BareHeaderRoundTrip` | crates/oc-acp/src/permission.rs:569 | the same when nothing or any number of `@@` marks follows the old range directly |
| `PatchText.PreambleIgnored` | crates/oc-acp/src/permission.rs:534-543 | lines before the first header, such as file headers, leave no trace |
| `PatchText.PatchTextRoundTrip` | crates/oc-acp/src/permission.rs:512-577 | every list of hunks is read back from any text that writes it: any preamble, any header layout, lines that say nothing anywhere, and markers of a missing newline, each of which adds a newline to the added or removed line before it and to no other |
| `PatchText.BadHeaderRefuses` | crates/oc-acp/src/permission.rs:534-538 | one header whose start is no number refuses the whole patch |
| `Plist.PlistParser.SkipSpace` | crates/oc-config/src/managed.rs:91-99 | the cursor moves to the first character that is no ASCII white space |
| `Plist.PlistParser.ReadOpenTag` | crates/oc-config/src/managed.rs:103-125 | the cursor-moving tag reader agrees with `TagAt` in its result, its error and the new cursor |
| `Plist.PlistParser.ReadUntilClose` | crates/oc-config/src/managed.rs:128-137 | text up to the first closing tag, and the cursor just after that tag; an error when there is none |
| `Plist.PlistParser.Parse` | crates/oc-config/src/managed.rs:139-182 | the mutually recursive reader agrees with `NodeAt` in every branch and error, ends on every input (measure: what is left of the input), and leaves the cursor where `NodeAt` says |
| `Plist.PlistParser.ParseDict` | crates/oc-config/src/managed.rs:184-200 | the loop over the entries agrees with `DictAt` |
| `Plist.PlistParser.ParseArray` | crates/oc-config/src/managed.rs:202-212 | the loop over the items agrees with `ArrayAt` |
| `PlistTheorems.ReadsTag` | crates/oc-config/src/managed.rs:103-125 | after any ASCII white space an opening tag is read as its name, and is self-closing exactly when it ends in a slash |
| `PlistTheorems.ReadsContent` | crates/oc-config/src/managed.rs:128-137 | an element whose text is free of its own closing tag is read as that text |
| `PlistTheorems.ReadsNode` | crates/oc-config/src/managed.rs:139-182 | a printed tree occurring anywhere in an input is read as its tree, with the cursor at its end |
| `PlistTheorems.PlistRoundTrip` | crates/oc-config/src/managed.rs:139-213 | every printed tree, with any white space between tokens and any padding the reader trims, followed by anything, is read as its tree with the cursor at the suffix |
| `PlistTheorems.PlainTree` | crates/oc-config/src/managed.rs:139-213 | every tree without reals whose texts are free of their own closing tags and trimmed where the reader trims has a printed form that stands for it |
| `PlistTheorems.PrintThenRead` | crates/oc-config/src/managed.rs:139-213 | printing such a tree and reading it followed by any suffix gives the tree, with the cursor at the suffix |
| `PlistExact.SurvivesIff` | crates/oc-config/src/managed.rs:139-213 | a tree without reals survives printing and reading before every suffix if and only if its integers fit, its texts are free of their own closing tags, and its keys, data and dates are free of the white space the reader drops |
| `PlistExact.NodeExact` | crates/oc-config/src/managed.rs:139-213 | wherever the printed form of a tree without reals is read as that tree, the tree is one of these |
| `PlistExact.ContentPrefix` | crates/oc-config/src/managed.rs:128-137 | what is read of an element is a prefix of its text, and the whole only when the text is free of its closing tag |
| `PlistTheorems.IntegerText` | crates/oc-config/src/managed.rs:145-151 | every `i64` survives its decimal text |
| `PlistElements.TagReads` | crates/oc-config/src/managed.rs:103-125 | a tag is its first word, whatever white space, attributes and slashes are in the brackets, and closes itself exactly when a slash stands last |
| `PlistElements.NoTag` | crates/oc-config/src/managed.rs:104-107 | anything but ASCII white space before a bracket is no tag |
| `PlistElements.UnterminatedTagFails` | crates/oc-config/src/managed.rs:109-111 | a bracket that is never closed is an unterminated tag |
| `PlistElements.NamelessTagFails` | crates/oc-config/src/managed.rs:112-123 | brackets with only white space and slashes in them have no name |
| `PlistElements.StringReads` | crates/oc-config/src/managed.rs:144 | a string is all of its text, white space included |
| `PlistElements.DataReads` | crates/oc-config/src/managed.rs:171-176 | data wrapped by any white space before, between and after its pieces is the concatenated pieces |
| `PlistElements.DateReads` | crates/oc-config/src/managed.rs:177-179 | a date is its text without the white space around it |
| `PlistElements.IntegerReadsIff` | crates/oc-config/src/managed.rs:145-151 | an integer is read from exactly the numerals of its value that fit 64 bits, with zeros and a sign, whatever the white space around them |
| `PlistElements.RealReads` | crates/oc-config/src/managed.rs:152-158 | a real is what the reader of reals makes of its text without the white space around it |
| `PlistElements.Rejects` | crates/oc-config/src/managed.rs:159-181 | other names, truth values that do not close themselves, and texts never closed are refused, each with its error |
| `PlistElements.ContainersReject` | crates/oc-config/src/managed.rs:184-212 | a dictionary entry that does not begin with a key is refused, and a container passes on the error of what it holds |
| `Decimal.UsizeIff` | crates/oc-acp/src/permission.rs:571 | `parse::<usize>` takes exactly the decimal numerals that fit, after zeros and perhaps a plus sign |
| `Decimal.I64Iff` | crates/oc-config/src/managed.rs:147-150 | `parse::<i64>` takes exactly the decimal numerals that fit, after zeros and perhaps a sign |
| `StableStringifyTheorems.StableTextIffEquivalent` | crates/oc-acp/src/service.rs:1492-1515 | two JSON values have the same stable text if and only if they are equal up to the order of object keys at every depth |
| `StableStringifyTheorems.EquivalentSameText` | crates/oc-acp/src/service.rs:1498-1512 | reordering object keys anywhere does not change the text |
| `StableStringifyTheorems.ObjectsEquivalent` | crates/oc-acp/src/service.rs:1499-1500 | sorting keys is a normal form: objects are equivalent exactly when their sorted entries agree one by one |
| `StableStringifyTheorems.Readable` | crates/oc-acp/src/service.rs:1492-1515 | a text followed by anything that may follow a value determines the value (up to key order) and where it ends: no value's text runs into what follows |
| `StableStringifyTheorems.EscapeReadable` | crates/oc-acp/src/service.rs:1505 | string literals as `serde_json` prints them can be read back, so no two strings share a literal |
| `JsonText.EscapeIsShortest` | crates/oc-acp/src/service.rs:1505 | every character of a string is written as section 7 of RFC 8259 has it, in the shortest way there is, with hexadecimal digits in lower case |
| `JsonText.Names` | crates/oc-acp/src/service.rs:1513 | the texts of null and of the truth values |
| `RegistrationKeys.RegistrationKeyIffSame` | crates/oc-acp/src/service.rs:1487-1489 | `name:text` keys of object configurations are equal exactly when name and configuration (up to key order) are, even though names may hold colons, quotes and braces |
| `RegistrationKeys.NoObjectSuffix` | crates/oc-acp/src/service.rs:1487-1489 | no object's text ends in a colon followed by an object's text, which is what makes the separator unambiguous |
| `RegistrationKeys.ObjectOpen` | crates/oc-acp/src/service.rs:1498-1512 | strictly inside an object's text some bracket outside string literals is open |
| `Glob.SegmentMatches` | crates/oc-config/src/glob.rs:35-59 | the dynamic-programming table, and the shortcut without stars, decide the wildcard relation `Wild` |
| `Glob.PrefixStep` | crates/oc-config/src/glob.rs:44-57 | each cell of the table follows from its neighbours, for all prefixes of name and pattern |
| `Glob.WildSnocStar` | crates/oc-config/src/glob.rs:51-52 | a final star leaves any split of the name to the rest of the pattern |
| `Glob.WildLiteral` | crates/oc-config/src/glob.rs:36-38 | without a star the relation is equality |
| `Glob.ExpandBraces` | crates/oc-config/src/glob.rs:10-32 | the recursive expansion with its nested loops is `Expand`, in order and with repeats |
| `Glob.OptionsAreSplit` | crates/oc-config/src/glob.rs:17 | the pieces of a group are exactly the comma-free texts between its commas and ends |
| `Glob.ExpandIsBraces` | crates/oc-config/src/glob.rs:10-32 | the expansion lists exactly the texts the brace groups stand for, read as a relation |
| `GlobScan.Walk` | crates/oc-config/src/glob.rs:71-105 | the walk pushes onto the shared vector exactly the paths below the directory that match the remaining segments, and ends by (remaining segments, subtree) |
| `GlobScan.WalkGlobstar` | crates/oc-config/src/glob.rs:77-86 | the `**` branch pushes exactly the paths that match through it |
| `GlobScan.WalkSegment` | crates/oc-config/src/glob.rs:87-103 | the wildcard branch pushes exactly the paths that match through it |
| `GlobScan.ThroughGlobstar` | crates/oc-config/src/glob.rs:77-86 | a path matches through `**` exactly when it matches the next segments here, or the same segments inside a subdirectory |
| `GlobScan.ThroughSegment` | crates/oc-config/src/glob.rs:87-103 | a path matches through a wildcard exactly when it goes through a child whose name matches |
| `GlobScan.SegmentsMeanPattern` | crates/oc-config/src/glob.rs:63-105 | walking segment by segment accepts exactly the paths of the declarative pattern relation: any number of directories for each `**`, one matching name for every other piece |
| `GlobScan.SortByNameOrders` | crates/oc-config/src/glob.rs:99 | the matches of a directory are walked in name order |
| `GlobScan.FinalGlobstar` | crates/oc-config/src/glob.rs:77-86 | a pattern ending in `**` accepts what the pieces before it accept, with any number of names after it, and such names only on the way to a directory |
| `GlobScan.SortPathsSorts` | crates/oc-config/src/glob.rs:67 | the result is in ascending component order and has the same paths, repeats included |
| `GlobScan.Scan` | crates/oc-config/src/glob.rs:63-69 | for every finite tree and every pattern, the result is sorted and holds exactly the paths the pattern accepts |
| `Sse.SseDecoder.PushChunk` | crates/oc-client/src/sse.rs:65-78 | what a chunk adds to the buffer, with its last carriage return kept as it is |
| `Sse.SseDecoder.TakeBlock` | crates/oc-client/src/sse.rs:81-86 | the buffer is split at the first blank line, or left alone |
| `Sse.SseDecoder.NextValue` | crates/oc-client/src/sse.rs:33-63 | one call hands out the first payload of the observation still ahead, or ends as it ends; the rest stays ahead |
| `Sse.DecodeAll` | crates/oc-client/src/sse.rs:33-63 | calling until the end yields exactly the observation `Run` of the response |
| `Sse.FirstBlock` | crates/oc-client/src/sse.rs:81-86 | cutting all blocks of a text starts with the block up to the first blank line |
| `SseEvents.StreamRoundTrip` | crates/oc-client/src/sse.rs:33-98 | whatever events a server writes (data lines with any white space after the colon, other fields and comments between them), their data is read back, one payload for each event that has any |
| `SseEvents.EventData` | crates/oc-client/src/sse.rs:89-98 | the data of an event is its data lines, in order, joined by line ends |
| `SseEnds.DropsAfter` | crates/oc-client/src/sse.rs:60 | a connection that drops: the payloads of the complete blocks received, not of the unterminated rest, up to the first bad one, and then the transport failure |
| `SseEnds.OverflowsAfter` | crates/oc-client/src/sse.rs:53-58 | a chunk that makes the unterminated rest longer than a megabyte: the payloads of the blocks complete before it, up to the first bad one, and then the failure |
| `SseEnds.ClosesAfter` | crates/oc-client/src/sse.rs:42-51 | a body that ends: the payloads of all blocks, the unterminated one included, up to the first bad one |
| `SseEnds.EveryStream` | crates/oc-client/src/sse.rs:52-61 | every sequence of reads is some chunks within the limit followed by one of these three endings |
| `SseEnds.EndIff` | crates/oc-client/src/sse.rs:33-63 | exactly when a stream ends as finished, with a transport failure, with a buffer too long, and with a bad payload, in terms of what was received |
| `SseEnds.BytesAre` | crates/oc-client/src/sse.rs:55 | the buffer limit counts a byte for each character and one more each from U+0080, U+0800 and U+10000 on |
| `SseTheorems.CutAppend` | crates/oc-client/src/sse.rs:33-63 | cutting blocks now and more later is cutting the whole text |
| `SseTheorems.RunIsWhole` | crates/oc-client/src/sse.rs:33-63 | reading chunk by chunk gives what reading all their contributions at once gives |
| `SseTheorems.WholePayloads` | crates/oc-client/src/sse.rs:33-63 | a text read at once yields the data of its blocks, the last unterminated one included |
| `SseTheorems.ReceivesNormalizedIff` | crates/oc-client/src/sse.rs:65-78 | the decoder works on the normalised stream if and only if no chunk ends in a carriage return |
| `SseTheorems.ChunkIndependence` | crates/oc-client/src/sse.rs:33-98 | for every cutting without a cut after a carriage return and within the limit, the outcome is that of decoding the whole normalised stream |
| `SseTheorems.SameStreamSameOutcome` | crates/oc-client/src/sse.rs:33-98 | two such cuttings of one stream have the same outcome |
| `SseTheorems.SplitCrLfDiverges` | crates/oc-client/src/sse.rs:67-76 | for any two one-line events whose blank line is cut after its carriage return, the consumer gets at most one payload where the whole stream delivers two |
| `SseCuts.SafePayloadsIff` | crates/oc-client/src/sse.rs:33-98 | for every prefix of a stream: cutting after it leaves the payloads alone for every continuation if and only if it does not end in a carriage return |
| `SseCuts.SafeCutIff` | crates/oc-client/src/sse.rs:33-98 | the same for the outcome the consumer observes, for every continuation within the buffer limit and every notion of a good payload; the prefix leaves room for one more short line |
| `SseCuts.ProbeTells` | crates/oc-client/src/sse.rs:67-98 | for every text, a line after an unrecognised carriage return gives other payloads than after a line end |
| `DirectoryCache.Service.SharedFor` | crates/oc-acp/src/directory.rs:216-223 | the entry's slot, or a new empty one entered under the directory |
| `DirectoryCache.Service.Settle` | crates/oc-acp/src/directory.rs:190-202 | an empty slot takes a successful load; a full slot wins over the load |
| `DirectoryCache.Service.Get` | crates/oc-acp/src/directory.rs:184-203 | undisturbed: a cached result is returned, a success is cached, a failure leaves nothing, and other directories are untouched |
| `DirectoryCache.Service.Refresh` | crates/oc-acp/src/directory.rs:206-214 | undisturbed: the new load is returned and cached, or the entry is gone; other directories are untouched |
| `DirectoryCacheRuns.RunInv` | crates/oc-acp/src/directory.rs:184-223 | every interleaving of `get` and `refresh` at their lock acquisitions and loads keeps ownership, slot contents, pending evictions and the record of answers consistent |
| `DirectoryCacheRuns.OwnResultsOnly` | crates/oc-acp/src/directory.rs:184-223 | in every run a call returns, and a slot holds, only what was loaded for its own directory |
| `DirectoryCacheRuns.SameSnapshotOnSlot` | crates/oc-acp/src/directory.rs:190-202 | successful `get`s on one slot without a refresh writing to it in between return one snapshot, whatever their own loads returned |
| `DirectoryCacheRuns.NextErrors` | crates/oc-acp/src/directory.rs:208-212 | an entry whose slot holds an error always belongs to a refresh about to evict it |
| `DirectoryCacheRuns.NoErrorsWhenIdle` | crates/oc-acp/src/directory.rs:208-212 | with no eviction pending, no entry holds an error |
| `DirectoryCacheSharing.OwnLoadIff` | crates/oc-acp/src/directory.rs:184-189 | in every run a `get` that looks into its slot starts a load of its own if and only if nothing has been written to the slot; otherwise it is done with what the slot holds |
| `DirectoryCacheSharing.LoadsNotShared` | crates/oc-acp/src/directory.rs:182-189 | witness: for every n, n `get`s of one directory can all be loading at once |
| `DirectoryCacheSharing.RefreshAnswersIff` | crates/oc-acp/src/directory.rs:206-214 | in every run a refresh has an answer if and only if its own load returned it; it never answers from the cache |
| `DirectoryCacheSharing.CanFinish` | crates/oc-acp/src/directory.rs:184-214 | from every reached state any call comes to its end by its own steps |
| `DirectoryCacheSharing.EvictionRemovesIff` | crates/oc-acp/src/directory.rs:194-212 | in every run an eviction removes a snapshot if and only if the directory's entry is, by then, a slot known from the events to hold one |
| `DirectoryCacheSharing.QuietEvictionIff` | crates/oc-acp/src/directory.rs:190-212 | with no step on the directory between a failing call's last write and its eviction, the eviction removes a snapshot if and only if the entry was already another slot, holding one |
| `DirectoryCacheSharing.LeftAloneRemovesNothing` | crates/oc-acp/src/directory.rs:184-214 | a call with which no other call of its directory interferes from its first step on never removes a snapshot |
| `DirectoryCacheSharing.HealthyEntryEvicted` | crates/oc-acp/src/directory.rs:194-197 | witness: a failing `get` removes an entry a refresh has just filled |
| `DirectoryCacheSharing.StaleGetEvicts` | crates/oc-acp/src/directory.rs:194-197 | witness: a `get` whose slot was abandoned while it loaded removes the snapshot of the slot that replaced it, with nothing in between |
| `ToolCalls.Subscription.HandleToolPart` | crates/oc-acp/src/event.rs:401-440 | handling a part changes the open calls, the snapshots and what was sent as `Handled` says |
| `ToolCalls.Subscription.RunningTool` | crates/oc-acp/src/event.rs:443-490 | an output equal to the stored snapshot is sent without content, any other is stored and sent |
| `ToolCalls.Subscription.ToolStart` | crates/oc-acp/src/event.rs:493-528 | a start is sent once per open call |
| `ToolCalls.Subscription.ClearTool` | crates/oc-acp/src/event.rs:531-534 | the call is open no longer and its snapshot is gone |
| `ToolCalls.HandledBrackets` | crates/oc-acp/src/event.rs:401-440 | handling a part keeps the trace of every call bracketed |
| `ToolCalls.TracesBracketed` | crates/oc-acp/src/event.rs:401-534 | after any sequence of parts the notifications of each call are finished (start, updates, end) blocks and at most one open block, and the call is in `tool_starts` exactly while a block is open |
| `ToolCalls.StatusTold` | crates/oc-acp/src/event.rs:401-534 | after any sequence of parts the status last told of each call is that of its latest part, and the call is open exactly while that part is pending or running |
| `ShellOutput.LatestIsShown` | crates/oc-acp/src/event.rs:401-490 | with call ids belonging to one session each, a client shows each call's latest content since it was last opened, read off the parts alone |
| `ShellOutput.DedupInvariant` | crates/oc-acp/src/event.rs:455-475 | a stored snapshot is always what the last content delivered for the call shows |
| `ShellOutput.DedupKeepsDisplay` | crates/oc-acp/src/event.rs:443-490 | with call ids belonging to one session each, a client shows after any parts what it would show had every output been sent every time |
| `ShellOutput.SharedCallMissesOutput` | crates/oc-acp/src/event.rs:455-472 | with a call id shared by any two sessions the second session misses an output |
| `ShellOutput.DedupUnnoticedIff` | crates/oc-acp/src/event.rs:443-490 | for every set of (session, call) pairs that may occur: leaving repeated output out is never noticed if and only if no call belongs to two sessions |
| `IdleWaiters.IdleMap.Register` | crates/oc-acp/src/event.rs:150-155 | a waiter joins its session's waiters |
| `IdleWaiters.IdleMap.Take` | crates/oc-acp/src/event.rs:165 | an idle takes exactly its session's waiters out of the map |
| `IdleWaiters.IdleMap.RemoveIdleWaiter` | crates/oc-acp/src/event.rs:173-181 | one waiter leaves, and its session with it when it was the last |
| `IdleWaiters.RunInv` | crates/oc-acp/src/event.rs:140-181 | every interleaving of prompts, answers, timeouts, idles and signals keeps ids, stages, map and record consistent |
| `IdleWaiters.MapHoldsTheWaiting` | crates/oc-acp/src/event.rs:149-181 | in every run the map holds exactly the waiters registered, not taken by an idle and not removed, and no empty session |
| `IdleWaiters.SignalledOnceByOwnIdle` | crates/oc-acp/src/event.rs:164-171 | a waiter is signalled at most once, and only after an idle of its own session that came after it registered |
| `IdleWaiters.ReleasedWereSignalled` | crates/oc-acp/src/event.rs:157-161 | a prompt released without timing out had its waiter signalled |
| `IdleWaiters.EmptyWhenFinished` | crates/oc-acp/src/event.rs:160-181 | once all calls have finished the map is empty |
| `IdleProgress.OutcomeIff` | crates/oc-acp/src/event.rs:156-161 | in every run a prompt is over as failed, timed out or released if and only if, respectively, its request was answered with an error, its time ran out, or it took a step with its waiter signalled |
| `IdleProgress.ReleasedIff` | crates/oc-acp/src/event.rs:157-160 | a waiting prompt's next step releases it if and only if its waiter has been signalled |
| `IdleProgress.OneSignaller` | crates/oc-acp/src/event.rs:164-171 | in every run a waiter taken and not yet signalled is held by exactly one idle, which can still signal it |
| `IdleProgress.CanBeReleased` | crates/oc-acp/src/event.rs:156-171 | from every reached state a prompt whose waiter an idle has taken can still finish as released, without any time running out |
| `IdleProgress.NextIdleTakes` | crates/oc-acp/src/event.rs:164-165 | a registered waiter that no idle has taken is taken by the next idle of its session |
| `IdleProgress.IdsInTurn` | crates/oc-acp/src/event.rs:149 | in every run the ids given out are 1, 2 and so on |
| `IdleProgress.CanFinish` | crates/oc-acp/src/event.rs:140-162 | from every state any prompt can be brought to its end |
| `SessionList.ListSessions` | crates/oc-acp/src/service.rs:373-443 | live and server entries joined, sorted, filtered by the cursor and cut to a page, as `Respond` says |
| `SessionList.EntriesAre` | crates/oc-acp/src/service.rs:397-416 | the entries are exactly the live sessions whose ids the server does not list, in their order, and then all of the server's |
| `SessionList.SortIsStable` | crates/oc-acp/src/service.rs:417-421 | sessions of one time stay in their order |
| `SessionList.PageOfHundred` | crates/oc-acp/src/service.rs:381-441 | a page has at most a hundred entries of those before the cursor, and the next cursor is the time of the hundredth, or 0 if that is negative, exactly when there are more |
| `SessionList.SortLatestSorts` | crates/oc-acp/src/service.rs:417-421 | the sort is latest first and keeps every entry |
| `SessionList.EarlierIsSuffix` | crates/oc-acp/src/service.rs:423-429 | the entries before a cursor are a suffix of the sorted list |
| `SessionList.Divides` | crates/oc-acp/src/service.rs:423-441 | how a full page divides the list: the page, the entries that share its last time and are skipped, and all that is earlier |
| `SessionList.PagesConserve` | crates/oc-acp/src/service.rs:423-441 | every entry is shown once or missed, counted with repeats |
| `SessionPages.PagesDescend` | crates/oc-acp/src/service.rs:417-430 | the pages together are latest first |
| `SessionPages.MissedExactly` | crates/oc-acp/src/service.rs:424-437 | an entry is missed if and only if it shares the last time of a full page and is not on it |
| `SessionPages.DistinctTimesShowAll` | crates/oc-acp/src/service.rs:417-441 | distinct times: the pages together are the sorted list itself |
| `SessionPages.CursorsFollowPages` | crates/oc-acp/src/service.rs:373-443 | from any cursor: if no full page ends at a negative time, following `next_cursor` ends with exactly the pages of the list |
| `SessionPages.FollowedArePages` | crates/oc-acp/src/service.rs:373-443 | whoever has followed the cursors to the end through pages none of which but the last ends at a negative time has got exactly the pages of the list |
| `SessionPages.FollowingCursors` | crates/oc-acp/src/service.rs:373-443 | for every fixed set of sessions with distinct ids, whatever their times: the pages a client gets are disjoint if and only if none but the last ends at a negative time; they are then jointly latest first and hold every entry but those cut off by a full page |
| `SessionPages.ShownTwice` | crates/oc-acp/src/service.rs:434-438 | after a full page that ends at a negative time the last entry of that page is shown again |
| `SessionPages.ShowsOnceIff` | crates/oc-acp/src/service.rs:373-443 | following the cursors ends and shows nothing twice if and only if no full page of the sorted list ends at a negative time, as when there is no negative time |
| `SessionPages.EndsIffFewNegatives` | crates/oc-acp/src/service.rs:434-438 | following the cursors ends if and only if at most one page of sessions has a negative time, because the cursor is cast to an unsigned number |
| `Merge.Merged` | crates/oc-config/src/merge.rs:11-39 | the recursive merge with its loops over keys and indices is `MergeDeep` |
| `Merge.MergeAt` | crates/oc-config/src/merge.rs:13-36 | containers of one kind merge child by child, at every key and index |
| `Merge.HidesIffCovers` | crates/oc-config/src/merge.rs:11-39 | merging a layer over another gives the layer itself exactly when it covers the other at every shared container |
| `Merge.Idempotent` | crates/oc-config/src/merge.rs:11-39 | merging a value with itself changes nothing |
| `Merge.Absorbs` | crates/oc-config/src/merge.rs:11-39 | merging a layer in a second time changes nothing |
| `Merge.AssociativeIff` | crates/oc-config/src/merge.rs:11-39 | the two groupings of three layers agree if and only if, wherever a middle layer of another kind stands between two containers of one kind, the top one covers the bottom one |
| `Merge.SettingComesFrom` | crates/oc-config/src/merge.rs:11-39 | a plain setting stands at a path of a merge exactly when the upper layer has it there, or the lower has it and the upper lets it through |
| `Merge.ConcatUnique` | crates/oc-config/src/merge.rs:43-52 | the loop with its seen set keeps first occurrences |
| `Merge.DedupeKeepLast` | crates/oc-config/src/merge.rs:56-72 | the backward loop with its seen set keeps last occurrences by key, in the original order |
| `Merge.KeepFirstPlaces` | crates/oc-config/src/merge.rs:43-52 | what is kept are exactly the places no earlier item equals, in order |
| `Merge.KeepLastPlaces` | crates/oc-config/src/merge.rs:56-72 | what is kept are exactly the places whose key no later item has, in order |
| `Merge.ConcatUniqueAssociative` | crates/oc-config/src/merge.rs:43-52 | joining lists of three layers does not depend on the grouping |
| `ModelSelection.RejoinIff` | crates/oc-acp/src/config_option.rs:186-242 | for any providers, the parsed pieces join to the input if and only if it has a slash |
| `ModelSelection.BaseReadsBackIff` | crates/oc-acp/src/config_option.rs:186-242 | exactly when `provider/model` is read as that provider and model, for any ids at all |
| `ModelSelection.VariantReadsBackIff` | crates/oc-acp/src/config_option.rs:186-242 | exactly when `provider/model/variant` is read as that variant, for any ids at all |
| `ModelSelection.OwnersIff` | crates/oc-acp/src/config_option.rs:187-190 | every provider is found by all its ids if and only if no provider id with its slash begins another's |
| `ModelSelection.OwnerIff` | crates/oc-acp/src/config_option.rs:187-190 | the owner of an id is the first provider whose id and a slash begin it |
| `ModelSelection.FirstOfId` | crates/oc-acp/src/config_option.rs:325-327 | the variants of a model are looked up at the first provider that has the id |
| `ModelSelection.LastSlashAfter` | crates/oc-acp/src/config_option.rs:202-204 | splitting at the last slash undoes the joining exactly when the variant has no slash |
| `ModelOptions.BuildModelSelectOptions` | crates/oc-acp/src/config_option.rs:279-323 | the nested loops push the options of exactly the choices `Choices`, in order |
| `ModelOptions.ChoicesAreOffered` | crates/oc-acp/src/config_option.rs:279-323 | a choice is offered exactly when its model is listed and its variant, if any, is listed and not the default |
| `ModelOptions.OptionsAre` | crates/oc-acp/src/config_option.rs:283-321 | the options, by value and name, are one for each listed model and, if variants are offered, one for each of its variants but the default; and nothing else |
| `ModelOptions.SortsByName` | crates/oc-acp/src/config_option.rs:286 | the models of a provider are offered in name order |
| `ModelOptions.ReadsBackIff` | crates/oc-acp/src/config_option.rs:186-242 | the value of a listed choice is read back as that choice if and only if it is unambiguous |
| `ModelOptions.OptionsReadBackIff` | crates/oc-acp/src/config_option.rs:186-323 | all options offered are read back as what they stand for if and only if none of them is ambiguous |
| `ModelOptions.PlainIdsUnambiguous` | crates/oc-acp/src/config_option.rs:186-323 | prefix-free provider ids, variants without slashes and no shadowed variant make every choice unambiguous |
| `ModelOptions.CurrentNames` | crates/oc-acp/src/config_option.rs:245-252 | the current value of a listed model names the variant picked if it is one of the model's, else the default if the model has it, else the first; and none if variants are not offered |
| `ModelOptions.CurrentReadsBackIff` | crates/oc-acp/src/config_option.rs:245-252 | the current value is read back as the model and that variant if and only if the choice is unambiguous |
| `ModelOptions.CurrentOfferedIff` | crates/oc-acp/src/config_option.rs:78-96 | for any properly listed providers, the current value is among the options if and only if the default is not the variant in force (picked, or fallen back on), or another choice offered has its text, which none has where no listed choice is ambiguous |
| `ModelOptions.SameTextAmbiguous` | crates/oc-acp/src/config_option.rs:186-242 | of two different listed choices with one text at least one is ambiguous |
| `Identifier.Counter.Create` | crates/oc-command/src/id.rs:22-46 | the shared state and the identifier after a call, for both directions and any clock |
| `Identifier.TimeText` | crates/oc-command/src/id.rs:35-39 | six shifted and masked bytes are the twelve low hexadecimal digits |
| `Identifier.HexDigits` | crates/oc-command/src/id.rs:38 | the digits are the sixteen hexadecimal ones in lower case |
| `Identifier.TailIs` | crates/oc-command/src/id.rs:41-48 | an identifier has 26 characters, each of the last fourteen chosen by one random byte |
| `Identifier.DigitsOrder` | crates/oc-command/src/id.rs:35-39 | fixed-width digits are ordered as strings exactly as numbers modulo the width |
| `Identifier.EncodedInWindow` | crates/oc-command/src/id.rs:32-33 | the low 48 bits are the stamp modulo 2^48, or its complement, in spite of the 64-bit wrap-around |
| `Identifier.IdOrder` | crates/oc-command/src/id.rs:22-46 | string order of the time digits is order of the stamps modulo 2^48 (reversed when descending), and carries over to whole identifiers |
| `Identifier.StampsAscendIff` | crates/oc-command/src/id.rs:23-32 | with a clock that does not go back, stamps strictly increase over a run if and only if the count never outruns the clock |
| `Identifier.StringsAscendIff` | crates/oc-command/src/id.rs:22-46 | within one 48-bit window the time digits strictly increase over a run under exactly that condition |
| `Identifier.DigitsInOrderIff` | crates/oc-command/src/id.rs:22-46 | at most 4095 calls a millisecond, any clock, runs of any length: the time digits of one call sort before another's if and only if its millisecond modulo 2^36 is earlier, or the same with a lower count (the other way round when descending) |
| `Identifier.IdsInOrder` | crates/oc-command/src/id.rs:22-46 | with a clock that does not go back and at most 4095 calls a millisecond, in runs of any length over any number of windows: of two calls in one window of 2^36 milliseconds the later identifier is greater, and less when descending |
| `Identifier.WindowEndBreaksOrder` | crates/oc-command/src/id.rs:35-39 | at the end of every window the next identifier sorts before the last one |
| `Identifier.CountIsCalls` | crates/oc-command/src/id.rs:24-29 | in every run the count is, modulo 2^32, exactly the number of calls at the same millisecond since the last call at another |
| `RunPool.Pool.Take` | reference/script/translate-app.ts:181-183 | a worker claims the iterator's next item or returns |
| `RunPool.Pool.Resume` | reference/script/translate-app.ts:184-185 | the value is stored and the worker goes on, or the error ends the worker |
| `RunPool.PutReplaces` | reference/script/translate-app.ts:185 | storing under a key that is there replaces its value in place |
| `RunPool.RunInv` | reference/script/translate-app.ts:178-192 | in every interleaving each item up to the iterator is held once (running, failed or stored), no other at all; workers number max(0, min(concurrency, n)), and none is idle while items are left |
| `RunPool.InFlightApart` | reference/script/translate-app.ts:181-185 | two workers never run one item, and a running item has no result yet |
| `RunPool.ResolvesInOrder` | reference/script/translate-app.ts:188-191 | when all workers have finished, the sorted results are every task's value in the order of the items |
| `RunPool.StepsEnd` | reference/script/translate-app.ts:181-186 | every step of every run lowers a measure, so runs end |
| `RunPool.StuckIff` | reference/script/translate-app.ts:181-188 | a run can go on until every worker has finished or failed |
| `RunPool.EndsComplete` | reference/script/translate-app.ts:178-192 | a run that has ended resolved with all values if and only if every task succeeds and there is a worker or nothing to do; with concurrency below one it resolves to nothing |
| `Text.FindIsFirst` | crates/oc-client/src/sse.rs:82 | `find` returns the first occurrence, and nothing else does |
| `Text.StringLessIff` | crates/oc-config/src/glob.rs:67 | strings are ordered by the first character in which they differ, and a proper prefix comes first |
| `Text.WhitespaceIff` | crates/oc-config/src/managed.rs:174 | white space is the 25 characters of the Unicode property |
| `Text.FindFromDelimiter` | crates/oc-config/src/managed.rs:131-133 | a delimiter whose first character does not recur in it is found where it was put after text free of it |

## Left out

- HTTP, serialisation of requests, task spawning and real clocks: inputs and steps of the models stand for them.
- Bytes: texts are sequences of characters. A UTF-8 sequence split across chunks, the byte unit of cursor positions, and a `*` matching single bytes of a name are not modelled. The buffer limit of the event decoder is counted in bytes (`Sse.Utf8Length`).
- Sse.SseDecoder.NextValue: whether a payload is JSON is a parameter; its parsed value is not modelled.
- Patch.ApplyPatch: works on the list of lines; splitting the original into lines, joining them and the newline at the end of the file are not modelled, nor are originals with carriage returns. The vector is a sequence the method reassigns. Sums of places wrap around as in a release build, where a debug build panics; only places are bounded, so the theorems about whole patches ask that all lines together be fewer than 2^63, as in any memory (`Patch.InMemory`).
- PatchText.PatchTextRoundTrip: starts from the patch's lines; splitting the text into them is not modelled.
- Plist.PlistParser.Parse: the reader of floating-point numbers is a parameter, and error messages are reduced to their kinds. Entities and self-closing containers are not decoded by the code either; the XML head and the surrounding `plist` element are stripped before the reader and are not part of this model.
- StableStringify: numbers are their printed texts, so two spellings of one number are two values.
- RegistrationKeys.RegistrationKeyIffSame: is about configurations that are objects, the only ones the callers build.
- GlobScan.Scan: the file system is a finite tree without links or unreadable directories; how often a path is returned is not specified, since overlapping alternatives repeat it in the code. Paths are relative to the directory scanned.
- DirectoryCache: slots are numbers into a sequence, standing for the shared heap cells; cancelled calls are not modelled.
- ToolCalls.TracesBracketed: is for parts handled one after another; a replay of a message at the same time as the event loop is not modelled. The texts of titles, inputs and locations in notifications are not modelled, nor is a failing connection.
- IdleWaiters.RunInv: calls are not cancelled, the wait for the connection before registering is left out, and the sequence number does not wrap.
- SessionList.ListSessions: times and cursors are whole milliseconds, a cursor text that is no finite number counts as no cursor, and the titles and directories of entries are left out.
- Merge.Merged: objects are maps, so the order of their keys is not modelled; equality of the library's values ignores it too.
- ModelOptions.BuildModelSelectOptions: the way a variant is written in an option's name rests on Unicode upper-casing and is a parameter; contents of variants are left out.
- Identifier.Counter.Create: the count wraps at 2^32 as in a release build, where a debug build panics; the random characters are an input.
- RunPool.EndsComplete: concurrency is a whole number; which of several errors rejects the pool is left to the order of the runtime's microtasks and is not modelled.
- Session stores, usage accounting, transport retry, front matter, configuration path discovery, audit and release scripts and the wire types: simple stores, bounded loops or data tables.
