# Verified models of basic-cli

Dafny models of the six parts of basic-cli that carry real state, loops or parsing, with proofs of
what they do on every input, run or interleaving. `dafny verify dfyconfig.toml` checks everything.

| files | part of basic-cli |
|---|---|
| `PowersOfTwo.dfy`, `Words.dfy`, `Allocator.dfy`, `AllocatorClient.dfy` | the header-carrying allocator shim, on a byte array with libc as an environment, and any client of it |
| `Snake.dfy`, `SnakeScreen.dfy`, `SnakeTheorems.dfy` | the snake game: transitions, renderer, and what holds after any key presses |
| `Streams.dfy`, `TcpReads.dfy`, `FileLines.dfy` | buffered readers over a scripted source: `read_until`, the TCP reads, reading files by line |
| `Sqlite.dfy`, `SqliteThreads.dfy`, `SqliteDrops.dfy`, `SqlitePanics.dfy`, `SqliteHost.dfy` | the per-thread SQLite connection cache, statement life cycle, which drops and calls break the code's promises, and `bind` |
| `Strings.dfy`, `CargoDependencies.dfy`, `CargoPrinter.dfy` | the Cargo.toml dependency extractor, and a printer with what is read from all it prints |
| `Commands.dfy` | the command builder and its lowering to a standard-library command |
| `Numbers.dfy`, `Sequences.dfy`, `Wrappers.dfy` | shared helpers |

## How each part is modelled

**Allocator.** `Host` is one 64-bit address space (an `array` of bytes indexed by address) and libc's
table of live blocks. `Malloc` and `Realloc` choose any 16-aligned free place or refuse, and `Realloc`
keeps the common prefix, as section 7.22.3 of ISO/IEC 9899:2011 allows; the proofs hold for every
choice. `process::exit` is the `exited` state. Every raw word store must lie inside a live block.
The specification is a plain map from live user pointer to bytes: each method is one `Step` of it,
and `Run` chains steps from the empty map. `Remember` is a reference model that knows nothing but the
bytes the client wrote. `AllocatorClient.RunClient` runs any list of client operations on a `Host`.

**Snake.** `Turn` is one key press followed by `update_game`; `GameLoop` reads inputs until the game
is over. `Observe` watches the game from outside and notes every head position and every arrival on
the food, so the theorems relate the state to the whole history.

**Streams.** A source is a finite script of chunks, interruptions and failures. What a reader still
has to give is a list of items (bytes, ends, failures) in which chunk borders and interruptions
cannot be seen. The exact and the delimited reads are specified on those items alone, so their results
cannot depend on capacity, chunking or interruptions; `ReadUpTo` returns what one fill has to offer and
may report an interruption, as in the source. An empty chunk is how a read reports an end; after the script
every read reports one. How many bytes `read_to_end` asks for at a time is left arbitrary.

**SQLite.** `Sqlite.dfy` has the shared world and the atomic accesses of `get_connection`,
`get_or_try` and `Drop` as functions; `SqliteThreads.dfy` interleaves the calls of any number of
threads, one access at a time, and logs every use of a handle by a call and every finalize with the
thread that drops; `SqliteHost.dfy` has the wrapper's loops on mutable state, each proved equal to
those functions. SQLite hands out fresh handles or codes, and nothing else is assumed of it.

**Cargo extractor.** The fold and the string operations are functions. The printer in
`CargoPrinter.dfy` is not in the repository: it generates sections with free padding, comments, blank
lines, text behind quoted values and other fields in tables. `Reading` is what the extractor makes of
any of them, in closed form, and `ReadsBack` says which come back as they were meant.

**Commands.** The builder is a record and functions on it; the lowering is a method with the
source's two loops over a `StdCommand` object.

## Where the code and its comments differ

- src/lib.rs:93-94 says the second word holds the total size; the code stores it in the last word of
  the header, which is the second word only for 16-byte headers. The model follows the code.
- src/lib.rs:58 promises an alignment; beyond 16 the code relies on more than libc guarantees.
  `PowersOfTwo.AlignmentHonoured` has the exact condition.
- Allocation refuses lengths above 1 GiB, reallocation has no such check. Both are modelled so.
- crates/roc_sqlite/src/lib.rs:26-32 guarantees that a handle is used on a single thread; `Drop` at 41-47
  finalizes the handles of all threads on the one that drops the statement. `SqliteDrops.SingleThreadPromiseFails`
  is a run in which thread 0 finalizes a handle of a connection that thread 1 is using;
  `SqliteDrops.DropFinalizesOwnExactly` has the exact condition.
- crates/roc_sqlite/src/lib.rs:146 (and each other call) expects that a prepare which succeeded on one
  thread cannot fail on another. `SqliteThreads.SecondThreadCanPanic` is a run in which it does, and
  `SqlitePanics.PanicsExactly` has the exact condition.
- ci/check_cargo_versions_match.roc:139 means to notice a section header, but 131 and 142 take any line that
  contains `dependencies]` for one. `CargoPrinter.CommentIsNotIgnored` is a comment in another section that
  turns the next line into a dependency; `CargoDependencies.BodySilentExactly` and
  `CargoDependencies.FileIsItsDependencySections` have the exact conditions.
- ci/check_cargo_versions_match.roc:223 looks for `version = ` in a table, but 224 takes the first `version`
  anywhere in it. `CargoPrinter.TableWithVersionIsSkipped` is an entry that is refused for the name of a
  feature, `CargoPrinter.TableWithVersionIsMisread` one that is read as its `rust-version`;
  `CargoPrinter.TableVersion` and `CargoPrinter.EveryTableVersion` have the exact conditions.
- ci/check_cargo_versions_match.roc:154 speaks of skipping comments; a dependency followed by a comment
  is skipped or misread with it. `CargoPrinter.QuotedEntryReadsBack` has the exact condition.

## Model

| member | source | states |
|---|---|---|
| PowersOfTwo.NextPowerOfTwo | src/lib.rs:63 | the rounded alignment is a power of two, not below its argument and below twice it |
| PowersOfTwo.NextPowerOfTwoIsLeast | src/lib.rs:59-66 | no smaller power of two would do |
| PowersOfTwo.HeaderSizeOfHeader | src/lib.rs:111-115 | passing the rounded alignment instead of the requested one finds the same header |
| PowersOfTwo.BaseRecovery | src/lib.rs:111-118 | dealloc and realloc find the block base exactly when their alignment is in the same rounding class as alloc's |
| PowersOfTwo.UserPointerModulo | src/lib.rs:101 | the returned pointer is congruent to the libc base modulo the header size |
| PowersOfTwo.AlignmentHonoured | src/lib.rs:58-101 | a power-of-two alignment is honoured for every block libc may return if and only if it is at most 16 |
| Words.WordRoundTrip | src/lib.rs:89-98 | a `usize` stored as eight bytes reads back unchanged |
| Allocator.AddBlock | src/lib.rs:73-101 | a new block with its header adds exactly one allocation, under a pointer not handed out before, and changes no other |
| Allocator.RemoveBlock | src/lib.rs:117-121 | giving back a block removes exactly its own allocation |
| Allocator.RefitBlock | src/lib.rs:144-157 | moving a block and rewriting only its size word moves exactly one allocation, keeps its alignment word and its common prefix |
| Allocator.WriteByte | src/lib.rs:100-101 | a client's store inside its own region changes that one byte of that one allocation |
| Allocator.PlacedBlock | src/lib.rs:65-73 | a saturated total is never live, so a block has exactly length plus header bytes, and its user pointer is aligned |
| Allocator.Host.Malloc | src/lib.rs:73 | any free 16-aligned place or null, every live block untouched |
| Allocator.Host.Realloc | src/lib.rs:144 | null and no change, or any place free without the old block, with the common prefix |
| Allocator.Host.Free | src/lib.rs:121 | only a live block can be freed, and then is not live |
| Allocator.Host.StoreWord | src/lib.rs:89-91 | the eight bytes decode to the word, nothing else changes, and they lie inside the block |
| Allocator.Host.WriteHeader | src/lib.rs:88-98 | after both stores the size word and, with room, the alignment word are right and do not disturb each other |
| Allocator.Host.Alloc | src/lib.rs:47-103 | one `Allocated` step of the plain map, aligned up to 16; exits exactly for lengths above 1 GiB or when libc refuses |
| Allocator.Host.Dealloc | src/lib.rs:106-123 | one `Freed` step of the plain map, for any alignment that rounds to the same header |
| Allocator.Host.Reallocate | src/lib.rs:126-159 | one `Reallocated` step of the plain map, keeping the smaller of the two lengths; exits exactly when libc refuses |
| Allocator.Host.Write | src/lib.rs:100-101 | one `Written` step of the plain map |
| Allocator.Host.Read | src/lib.rs:100-101 | the byte that the plain map records |
| Allocator.Host.Metadata | src/lib.rs:88-98 | in every reachable heap the size word is the real total, the alignment word the rounded alignment, and size minus header the user's length |
| Allocator.Host.UserRegionsApart | src/lib.rs:65-101 | regions and headers of different pointers never overlap |
| Allocator.Host.LiveBlocksArePointers | src/lib.rs:117-138 | libc's live blocks are the live pointers minus their headers, one to one: nothing leaks, nothing is freed twice |
| Allocator.StepAgrees | src/lib.rs:47-159 | one event keeps the heap in agreement with the reference model |
| Allocator.RunAgrees | src/lib.rs:47-159 | after any run, live pointers are those of the reference model and every surviving written byte is still there |
| AllocatorClient.RunClient | src/lib.rs:43-159 | end to end, for any client program, any placement and any alignment that rounds like the allocation's: until the process exits, each slot has its own live pointer, there are no others, and each holds every byte that the program alone says it has |
| Snake.WatchFollowsLoop | examples/terminal-app-snake.roc:47-67 | the observer sees the states of the game loop |
| Snake.OneMoreInput | examples/terminal-app-snake.roc:47-67 | each further input is one more turn of the state the loop is in, unless the game is over |
| Snake.TurnEffect | examples/terminal-app-snake.roc:69-110 | a surviving turn puts the head on the cell at the key's own offset, which was free, goes on in that direction, and grows exactly on food |
| Snake.TurnEnds | examples/terminal-app-snake.roc:57-84 | a turn ends the game if and only if the player quits, or the cell at the key's own offset is off the grid or in the body, and then changes neither snake nor food |
| Snake.ObserveKeepsBody | examples/terminal-app-snake.roc:69-102 | every turn keeps the body well formed and equal to the newest stretch of its trail |
| Snake.ObserveKeepsFood | examples/terminal-app-snake.roc:87-92 | every turn keeps the closed form of the food, the parity, and the crawling bound |
| Snake.WatchKeepsInv | examples/terminal-app-snake.roc:47-67 | the invariant holds after any inputs |
| SnakeScreen.JoinLines | examples/terminal-app-snake.roc:149 | joined lines stand at fixed strides with their breaks between them |
| SnakeScreen.CellOnScreen | examples/terminal-app-snake.roc:125-149 | each grid cell's character stands at its own index of the screen |
| SnakeScreen.ScreenLayout | examples/terminal-app-snake.roc:125-149 | 438 characters, every one determined by its row and column |
| SnakeScreen.CountCells | examples/terminal-app-snake.roc:131-144 | drawn characters and grid positions are in bijection |
| SnakeScreen.Census | examples/terminal-app-snake.roc:125-149 | one head, one `o` per further cell, one `*` unless covered, dots on all remaining of the 400 cells |
| SnakeTheorems.Reachable | examples/terminal-app-snake.roc:47-102 | the invariant holds in every state the loop reaches from the initial one |
| SnakeTheorems.ReachableStates | examples/terminal-app-snake.roc:77-119 | distinct chained cells in the grid, length 3 to 400, score never underflows, food determined by the length |
| SnakeTheorems.ReachableCensus | examples/terminal-app-snake.roc:125-149 | the census in every reachable state |
| SnakeTheorems.SnakeIsItsTrail | examples/terminal-app-snake.roc:95-102 | the snake is the first `len` of all head positions, newest first, then the initial body; `len` is 3 plus the hits |
| SnakeTheorems.FoodOnEvenMoves | examples/terminal-app-snake.roc:87-110 | head parity is move parity, so food is eaten on even moves only |
| SnakeTheorems.ScoreNeedsMoves | examples/terminal-app-snake.roc:87-92 | a score of k takes at least 6k + 4 moves |
| SnakeTheorems.ReversalIsFatal | examples/terminal-app-snake.roc:82-84 | turning around always ends the game |
| SnakeTheorems.KeysMoveTheHead | examples/terminal-app-snake.roc:57-64 | each key moves the `O` by its line or column: `w` 22 characters back, `s` 22 on, `a` one back, `d` one on |
| SnakeTheorems.InputsAreMoves | examples/terminal-app-snake.roc:47-67 | while the game runs every input is one move, and none is read after its end |
| SnakeTheorems.LeftAlone | examples/terminal-app-snake.roc:26-67 | without a key the snake runs from column 10 to the wall in nine turns, and the tenth ends the game |
| SnakeTheorems.ScreenTells | examples/terminal-app-snake.roc:125-149 | equal screens of reachable states mean equal head, cells, length and food |
| Streams.ChunkingInvisible | crates/roc_file/src/lib.rs:139-163 | splitting a chunk or interrupting the source leaves the items unchanged |
| Streams.BufReader.constructor | crates/roc_file/src/lib.rs:100-107 | a size of zero means 8192 bytes; the reader starts in front of the whole source |
| Streams.BufReader.FillBuf | crates/roc_file/src/lib.rs:141-145 | buffered bytes are offered without reading; otherwise one read of the source for the whole capacity; a read loses and reorders nothing |
| Streams.BufReader.Consume | crates/roc_file/src/lib.rs:157 | exactly the consumed bytes leave the front |
| Streams.BufReader.Read | crates/roc_http/src/lib.rs:293 | buffered bytes first, else one read of the source, past the buffer for large requests and through it for small ones; bytes come off the front, at most as many as asked |
| Streams.Memchr | crates/roc_file/src/lib.rs:146 | the first occurrence or none |
| Streams.UntilRound | crates/roc_file/src/lib.rs:146-161 | one round of the loop is so much of the unbuffered form |
| Streams.UntilDelimiter | crates/roc_file/src/lib.rs:146-155 | the delimiter can only be the last byte taken, and not before a failure |
| Streams.UntilMeaning | crates/roc_file/src/lib.rs:133-163 | the bytes are a front part of the stream that stops at a delimiter, failure or end |
| Streams.ReadUntil | crates/roc_file/src/lib.rs:133-163 | appends what the unbuffered form takes, returns its count, leaves its rest, and terminates, for every capacity, chunking and interruption |
| TcpReads.ReadUpTo | crates/roc_http/src/lib.rs:267-283 | one call step: at most n of the next bytes; what is buffered is returned at once, else exactly what one fill offers, up to n |
| TcpReads.ReadExactly | crates/roc_http/src/lib.rs:285-303 | one call step of the unbuffered form, for all read sizes and interruptions |
| TcpReads.ReadUntilByte | crates/roc_http/src/lib.rs:305-314 | one call step through the first delimiter |
| TcpReads.ExactlySucceeds | crates/roc_http/src/lib.rs:293-299 | succeeds exactly when n bytes come first, and takes just those |
| TcpReads.ExactlyFails | crates/roc_http/src/lib.rs:295-302 | UnexpectedEof exactly when fewer than n bytes come before an end |
| TcpReads.CallDelivers | crates/roc_http/src/lib.rs:267-314 | every successful call hands over the next bytes |
| TcpReads.CallBounds | crates/roc_http/src/lib.rs:267-314 | each call obeys its own bound |
| TcpReads.SessionConserves | crates/roc_http/src/lib.rs:267-314 | over any mixture of calls up to the first error, results plus what is left are the stream |
| TcpReads.CallLoses | crates/roc_http/src/lib.rs:267-314 | a failing call takes only bytes it had read for itself: none, fewer than n, or none that is the delimiter |
| TcpReads.RunSession | crates/roc_http/src/lib.rs:267-314 | end to end, for any list of calls on one stream: results, then what the failing call lost, then what is left, are the original stream |
| FileLines.FileReadLine | crates/roc_file/src/lib.rs:120-131 | one line of the unbuffered form, or its error |
| FileLines.ProcessLine | examples/file-read-buffered.roc:36-52 | terminates with the summary that the items determine |
| FileLines.PlainFile | crates/roc_file/src/lib.rs:120-131 | one line of a file without errors, and what remains of it |
| FileLines.LinesSplit | crates/roc_file/src/lib.rs:120-131 | the lines are non-empty, together the file, with a newline only at their end, and only the last may lack it |
| FileLines.ErrorFreeItems | crates/roc_file/src/lib.rs:139-163 | a source of non-empty chunks and interruptions is the plain file of its bytes |
| FileLines.SummaryCounts | examples/file-read-buffered.roc:36-49 | the totals are the number of lines and the length of the file |
| FileLines.FailureReported | examples/file-read-buffered.roc:36-52 | a failure of the source is the result, whatever was counted before it and comes behind it |
| FileLines.CountFile | examples/file-read-buffered.roc:22-28 | end to end, for every buffer size, chunking and interruption: an error-free file is counted by its newlines and its bytes, and the first failure of any other is returned |
| FileLines.LineCount | examples/file-read-buffered.roc:46 | the number of lines is the number of newlines, plus one for an unterminated end |
| Sqlite.Lookup | crates/roc_sqlite/src/lib.rs:59-63 | the scan finds an entry for the path exactly if there is one |
| Sqlite.ConnectKeepsCache | crates/roc_sqlite/src/lib.rs:57-82 | every cached connection stays, and only a successful open adds one |
| Sqlite.ConnectKeepsInv | crates/roc_sqlite/src/lib.rs:57-82 | the cache stays duplicate-free, failures are not cached, the result is the caller's own connection |
| Sqlite.PrepareKeepsInv | crates/roc_sqlite/src/lib.rs:95-112 | a slot is filled once, with a handle on the thread's own connection |
| Sqlite.DropKeepsInv | crates/roc_sqlite/src/lib.rs:41-47 | dropping finalizes exactly the statement's own handles, once each |
| Sqlite.FinalizedOnce | crates/roc_sqlite/src/lib.rs:41-47 | a handle is finalized once if its statement is gone, else never |
| Sqlite.SlotOnOwnConnection | crates/roc_sqlite/src/lib.rs:84-113 | a slot's handle lives on the connection its thread opened for the statement's path |
| Sqlite.LaterCallsHitTheCache | crates/roc_sqlite/src/lib.rs:84-113 | once a thread has its handle, every later lookup succeeds without asking SQLite |
| Sqlite.OpensAreCachedPaths | crates/roc_sqlite/src/lib.rs:54-82 | the vectors are a map from thread and path, with exactly one open for each entry |
| SqliteThreads.NextKeepsInv | crates/roc_sqlite/src/lib.rs:84-140 | every access of every thread keeps the invariant |
| SqliteThreads.RunSafe | crates/roc_sqlite/src/lib.rs:84-146 | in every interleaving each use of a handle by a call is of a live handle of the calling thread, for its statement, on its own connection |
| SqliteThreads.UsesLogged | crates/roc_sqlite/src/lib.rs:142-146 | no use is missing: there is one for each action that uses a handle, in order |
| SqliteThreads.HandleLifeCycle | crates/roc_sqlite/src/lib.rs:41-47 | at most one handle per statement and thread ever, finalized once, when the statement drops |
| SqliteThreads.ConnectionNeverChanges | crates/roc_sqlite/src/lib.rs:57-82 | over a whole run a thread's connection for a path stays the same |
| SqliteThreads.SecondThreadCanPanic | crates/roc_sqlite/src/lib.rs:145-146 | a run in which a prepared statement panics on a second thread |
| SqliteDrops.FinalizesLogged | crates/roc_sqlite/src/lib.rs:41-47 | over every run, each handle of a dropped statement was finalized by exactly one call, while live, on its owner's connection |
| SqliteDrops.DropFinalizesOwnExactly | crates/roc_sqlite/src/lib.rs:26-47 | in every run a dropping thread finalizes only its own handles if and only if no other thread has one of the statement |
| SqliteDrops.FailedPrepareFinalizesOwn | crates/roc_sqlite/src/lib.rs:126-139 | what a failing `prepare` cleans up is its own thread's |
| SqliteDrops.SingleThreadPromiseFails | crates/roc_sqlite/src/lib.rs:26-47 | a run in which thread 0 finalizes thread 1's handle on the connection that thread 1 is using |
| SqlitePanics.CallSeesOnlyItself | crates/roc_sqlite/src/lib.rs:84-113 | non-interference: within any call, `prepare` included, a thread's place, slot and connection are what its own accesses alone make of them, whatever the others do |
| SqlitePanics.RefusedCallFails | crates/roc_sqlite/src/lib.rs:84-146 | a call without a handle that SQLite refuses fails after its first access, or its second with a cached connection, in every interleaving: by a panic, or for `prepare` with its statement gone |
| SqlitePanics.GrantedCallSucceeds | crates/roc_sqlite/src/lib.rs:84-146 | a call that SQLite refuses nothing never fails by itself: its connection after one access, its own slot's handle after two, in every interleaving |
| SqlitePanics.PanicsExactly | crates/roc_sqlite/src/lib.rs:145-146 | in every run, a call that is being entered can panic if and only if its thread has no handle of the statement yet |
| SqliteHost.Host.GetConnection | crates/roc_sqlite/src/lib.rs:57-82 | asks SQLite exactly when the scan finds nothing; loop, open and push together are the atomic access `Connect` |
| SqliteHost.Host.ThreadLocalPrepare | crates/roc_sqlite/src/lib.rs:84-113 | both accesses in one go with SQLite's answers; nothing happens if the thread has its handle |
| SqliteHost.Host.PrepareStatement | crates/roc_sqlite/src/lib.rs:115-140 | returns SQLite's own answer, or NOMEM when the heap is full; after a failure the statement is gone and its handle finalized; no other statement, handle or cached connection changes |
| SqliteHost.Host.DropStatement | crates/roc_sqlite/src/lib.rs:41-47 | the loop over the slots finalizes each handle once, in any order |
| SqliteHost.Host.ErrorFromCode | crates/roc_sqlite/src/lib.rs:309-326 | the error path's lookup is a cache hit and opens nothing |
| SqliteHost.Host.BindEach | crates/roc_sqlite/src/lib.rs:154-213 | the loop's outcome for every way out of it; it stops at SQLite's first failure and reports that code |
| SqliteHost.Host.Bind | crates/roc_sqlite/src/lib.rs:142-214 | prepares on the calling thread if it has no handle and panics there only for an answer of SQLite; on success exactly the list's parameters, on failure exactly the prefix's, other handles untouched |
| SqliteHost.LastEntryWins | crates/roc_sqlite/src/lib.rs:154-212 | the last entry for a parameter wins, others are null |
| CargoDependencies.MentionsExactly | ci/check_cargo_versions_match.roc:128-131 | a line mentions a dependency section if and only if `dependencies]` stands somewhere in it |
| CargoDependencies.WalkAppends | ci/check_cargo_versions_match.roc:124-158 | what was found earlier does not influence what is found later |
| CargoDependencies.HeaderResets | ci/check_cargo_versions_match.roc:130-157 | a section header sets the flag on its own and is never parsed |
| CargoDependencies.SectionsIndependent | ci/check_cargo_versions_match.roc:120-160 | a header cuts the file into two parts that can be read alone |
| CargoDependencies.FileIsItsSections | ci/check_cargo_versions_match.roc:120-160 | the result is the concatenation over the sections |
| CargoDependencies.WalkClosedForm | ci/check_cargo_versions_match.roc:124-158 | without recursion on the state: a line adds its dependency exactly when it parses and the last marking line before it mentions a dependency section |
| CargoDependencies.ExtractClosedForm | ci/check_cargo_versions_match.roc:120-160 | the result is those contributions of the file's lines, in order |
| CargoDependencies.OtherTextIgnored | ci/check_cargo_versions_match.roc:130-157 | text contributes nothing if and only if none of its lines contributes, in particular if none mentions a dependency section |
| CargoDependencies.NothingWithoutMention | ci/check_cargo_versions_match.roc:120-160 | a text in which `dependencies]` does not occur contributes nothing |
| CargoDependencies.BodySilentExactly | ci/check_cargo_versions_match.roc:130-157 | a section's lines add nothing if and only if each line that parses comes while the flag is off and before any mention |
| CargoDependencies.FileIsItsDependencySections | ci/check_cargo_versions_match.roc:120-160 | a file is the concatenation over its dependency sections if and only if every other section is silent |
| CargoDependencies.QuotedShape | ci/check_cargo_versions_match.roc:200-212 | what is accepted as a string stands in quotes, or is a lone quote |
| CargoDependencies.TableShape | ci/check_cargo_versions_match.roc:221-242 | what is accepted as a table has `version`, an equals sign, and the version as the next quoted text |
| CargoPrinter.TableAccepted | ci/check_cargo_versions_match.roc:221-242 | the other direction: every text of that shape is accepted with its version, if no `version` stands before |
| CargoDependencies.ParsedLineShape | ci/check_cargo_versions_match.roc:169-192 | whatever line is accepted is no comment, its name stands before the first equals sign, its value is quoted or a table |
| CargoPrinter.QuotedExactly | ci/check_cargo_versions_match.roc:200-212 | a quoted value reads back exactly when nothing follows its closing quote |
| CargoPrinter.TableReads | ci/check_cargo_versions_match.roc:221-242 | what is read from any table in closed form: the first `version` decides, so it is the table's own version, another field's text, or a refusal |
| CargoPrinter.TableVersion | ci/check_cargo_versions_match.roc:221-242 | a table gives back its version if and only if that has no quote in it and no earlier text is taken for it, or another field that is taken for it has the same text |
| CargoPrinter.EveryTableVersion | ci/check_cargo_versions_match.roc:223-224 | a table gives back every version without a quote if and only if no `version` stands before its own, or only padding, an equals sign and no quote follow that one |
| CargoPrinter.DecoySkipsEntry | ci/check_cargo_versions_match.roc:223-242 | every entry with an earlier `version` that no equals sign follows is skipped |
| CargoPrinter.DecoyTaken | ci/check_cargo_versions_match.roc:223-238 | every entry with an earlier `version` that an equals sign and a quoted text follow is read with that text |
| CargoPrinter.TableWithVersionIsSkipped | ci/check_cargo_versions_match.roc:223-242 | a real dependency with the feature `version-sync` is refused |
| CargoPrinter.TableWithVersionIsMisread | ci/check_cargo_versions_match.roc:223-238 | a real dependency is read as its `rust-version` |
| CargoPrinter.EntryParsed | ci/check_cargo_versions_match.roc:169-192 | a padded line reads as its name and whatever its value reads as |
| CargoPrinter.LineRead | ci/check_cargo_versions_match.roc:147-157 | inside a section a printed line adds what its reading says, one dependency or nothing |
| CargoPrinter.ReadsBackExactly | ci/check_cargo_versions_match.roc:169-242 | a line reads as what it means if and only if it is a quoted entry with nothing visible behind it, or a table that gives back its version, or no entry |
| CargoPrinter.QuotedEntryReadsBack | ci/check_cargo_versions_match.roc:183-185 | a quoted entry reads back if and only if only white space follows |
| CargoPrinter.CommentedEntryIsSkipped | ci/check_cargo_versions_match.roc:153-155 | an entry followed by anything but white space is skipped, or read with it as its version if it ends in a quote |
| CargoPrinter.CommentWakesSection | ci/check_cargo_versions_match.roc:131-147 | in any other section, a comment that mentions a dependency section makes all entries behind it be read as if they were in one |
| CargoPrinter.CommentIsNotIgnored | ci/check_cargo_versions_match.roc:131-147 | the smallest file in which that happens |
| CargoPrinter.SectionRoundTrip | ci/check_cargo_versions_match.roc:120-242 | whatever is printed as a section is read as its readings, and these are the entries in order if and only if every one reads back |
| CargoPrinter.DependencyKindsAreRead | ci/check_cargo_versions_match.roc:128-157 | the readings of the lines under any header of the form `[`, anything, `dependencies]`, anything |
| CargoPrinter.SmallFile | ci/check_cargo_versions_match.roc:120-160 | of a file with `[package]` and `[dependencies]` just the entry under the latter |
| CargoPrinter.FileRoundTrip | ci/check_cargo_versions_match.roc:120-242 | the same, with the same if and only if, for a file of any number of dependency sections and silent others in any order |
| Strings.SplitJoined | ci/check_cargo_versions_match.roc:122 | splitting into lines undoes joining |
| Strings.TrimPadded | ci/check_cargo_versions_match.roc:128 | trimming removes the padding and nothing visible |
| Strings.SpaceByCodePoint | ci/check_cargo_versions_match.roc:128 | what is trimmed is exactly the white space of the Unicode Standard |
| Strings.ContainsTrimmed | ci/check_cargo_versions_match.roc:128-131 | trimming takes away no occurrence of a text with visible ends |
| Strings.SplitFirstAtNeedle | ci/check_cargo_versions_match.roc:224 | the first split falls behind a part without the needle |
| Commands.ToStdCommand | crates/roc_command/src/lib.rs:38-61 | the lowered command has the arguments in order and the child environment of the flat list |
| Commands.DecodeFlat | platform/Cmd.roc:66-75 | reading two at a time undoes the flattening |
| Commands.BuildMeaning | platform/Cmd.roc:14-89 | for every list of calls on any command the flat list stays even and decodes to the pairs in call order; arguments and clearing likewise |
| Commands.NewBuilds | platform/Cmd.roc:14-89 | from a new command on, program, arguments, clearing and variables are exactly what the calls say |
| Commands.BuildAndLower | platform/Cmd.roc:14-89 | end to end: the command that is started has that program, just those arguments, and that environment |
| Commands.CallSpelledOut | platform/Cmd.roc:28-89 | behind any calls, `arg` and `args` append, `env` sets its key to its value, and `clear_envs` leaves the builder's own variables |
| Commands.ChildEnvironment | platform/Cmd.roc:53-89 | the child sees the parent's variables unless cleared anywhere, overlaid with all pairs |
| Commands.LastPairWins | crates/roc_command/src/lib.rs:54-57 | the last pair for a key wins |
| Commands.ClearPositionIrrelevant | platform/Cmd.roc:83-89 | it makes no difference where `clear_envs` is called |
| Commands.EnvsIsRepeatedEnv | platform/Cmd.roc:66-75 | `envs` is `env` for each pair |

## Left out

- Allocator.Host.Alloc: demands an alignment of at most 2^63, beyond which the rounding itself overflows `usize`.
- Allocator.Host.Dealloc: demands a live pointer and an alignment of the same rounding, since the code has no way to notice anything else.
- Streams.BufReader.Read: std's buffer is a list of unread bytes here, not an array with two positions, and the sizes that std asks for are arbitrary.
- Streams.ReadUntil: bytes read before a failure are in the caller's buffer; the callers drop them, as in the source.
- TcpReads.SessionConserves: speaks of successful calls; `RunSession` goes through the first error, where a failing exact or delimited read loses its partial bytes.
- Reserving memory for huge exact reads, writing to streams, connecting, and the spelling of error messages.
- AllocatorClient.RunClient: an operation on a slot that does not admit it does nothing; the shim itself has no way to notice.
- SqliteHost.Host.GetConnection: a database path with a NUL character panics in the source and is not modelled.
- SqliteHost.Host.BindEach: the five value kinds share one SQLite call that succeeds, fails, or fails after resetting the parameter; floats are reals.
- SqliteThreads.RunSafe: `bind`, `step`, `reset` and the column calls are one kind of use of the handle; result rows, thread exit and a query text without a statement are not modelled.
- SQLite itself, its messages, and the reference counting of the statement heap: a statement drops when no call holds it.
- Snake input other than single bytes only keeps the direction; terminal control and drawing to the terminal are not part of this model.
- Strings.TrimPadded: Unicode white space is listed by character; text is a sequence of characters, so invalid UTF-8 does not arise.
- Comparing the two extracted lists, file access and exit codes of the Cargo check: easy once the lists are right.
- Starting processes, their output, and the operating system's rules for variable names.
- HTTP requests, hosted function tables, memory layouts, environment and path helpers: plumbing without state of their own.
