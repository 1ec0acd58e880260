# clickfs: a verified model

clickfs mounts a ClickHouse server as a read-only filesystem. This project models
the parts of it that carry state or transform text, and proves what they promise.
`dafny verify dfyconfig.toml` checks all of it.

| file | what it models |
|---|---|
| `StreamModel.dfy` | the reader's fields and steps, and the byte string with a cursor they stand for |
| `StreamBridge.dfy` | producer task, channel of 8, reader, cancel and drop, interleaved in any order; the invariant |
| `StreamTheorems.dfy` | what every schedule guarantees: conservation, refinement, memory, progress, exactly when a cancel takes effect |
| `StreamProperties.dfy` | what every serial run of reads guarantees: non-interference, error order, the tail window |
| `StreamHandle.dfy` | the handle as an object, its `read_blocking` proved against the byte string |
| `Tsv.dfy` | row reversal |
| `Sql.dfy`, `SqlReader.dfy` | the SQL text that is sent, and how a server reads it |
| `TailMeaning.dfy` | "the last N rows", from the query text to the reader |
| `InodeModel.dfy`, `InodeTable.dfy`, `InodeProtocol.dfy` | the inode table, serial as an object and concurrent as a step system |
| `TtlCache.dfy`, `CacheProtocol.dfy`, `Listings.dfy` | the TTL cache, serial and concurrent, and the fetches that use it |
| `Resolver.dfy`, `Directory.dfy` | path resolution; entries, verification and paging of directories |
| `Mount.dfy` | the tree path by path, spelled out: names, listings, lookups and errors |
| `ClickFs.dfy`, `CachedFs.dfy` | `lookup` and `readdir` over the inode table, and the same through the listing caches of a changing server |
| `Common.dfy`, `Pieces.dfy` | options, bytes; splitting and joining |

A step system is a state, a set of actions with the condition under which each may
happen, and a run over any sequence of actions; a theorem about it quantifies over
every such sequence. `history`, `delivered`, `changes`, `log` and `queries` record
what happened and are read by no step.

Integers are unbounded; the 64-bit places that matter (saturating and wrapping
addition, `PSEUDO_EOF`, inode numbers) are written out. Chunk contents are bytes,
names and SQL are strings, errors are opaque. An upstream that is silent is one that
has not taken its next `Offer` step.

## Assumptions that come from the code

- FUSE callbacks take `&mut self` (`src/fs.rs:569-570`), so reads of one handle are
  serial: the reader of the step system has one read in progress at a time.
- The cursor and the tail buffer do not meet: content plus tail is shorter than
  `PSEUDO_EOF`, which is 2^63 - 1 (`src/stream.rs:22`); `README.md:163` says 2^63.
- An error that a read has returned is gone (`src/stream.rs:224`, `src/stream.rs:287`);
  `docs/streaming-read.md:59` describes one that stays. The code is followed.
- The upstream's items end with its first error, because the producer stops there. It
  may be silent for as long as it likes: the answer to the connection, each item and the
  end arrive in steps of their own.
- The server prints listings as `FORMAT TabSeparated` does, with backslash escapes
  (`src/driver.rs:331-349`; `src/driver.rs:356-357` avoids them for `.schema`), and may
  take backslash escapes in backticked names as it does in strings.
- An entry of a `readdir` reply takes at least one byte; how many it takes is a
  parameter, since the reply buffer is not part of the repository.

## Found to be false, with the exact condition

- Inode allocation is not always race free. Two inodes for one path can come about, and
  a probe can run into the root's slot at all, if and only if more of the paths called
  for start their probe at some slot or above than the slots from there to the top, and
  slot 0, can take (`InodeProtocol.UniqueUnlessCrowded`; `RoomMeansNoBump` is a condition
  to check by counting paths).
- A cancel notification alone can be lost: it can take effect if and only if the
  producer waits at its select at that moment (`StreamTheorems.NotificationReachesOnlyAWaiter`),
  and even a waiter can lose it to a ready item (`PullForgetsNotification`). With the
  receiver dropped it cannot, but the producer may still need the upstream's next event:
  exactly how many it needs is `StreamTheorems.DroppedHaltCondition`.
- A fetch does not always get the server's names back: it does if and only if none of
  them contains a character that is escaped in print (`Listings.ListingRoundTrip`), and
  no name that comes back changed can be looked up (`Listings.EscapedNamesDoNotResolve`).
- A listed name is not always found by `lookup`: it is if and only if it is one the
  resolver accepts (`Directory.ListedIsFoundWhenAccepted`).
- A quoted name does not always read back where backticked names may hold backslash
  escapes: it does if and only if it has no backslash (`Sql.IdentRoundTrip`,
  `Sql.SourceRoundTrip`). Names from accepted paths have none.
- The tail query does not always sort descending on every key column: it does exactly
  when no column expression contains a comma, so `f(a, b)` is cut in two
  (`Sql.OrderClauseIsPerColumn`, `Sql.CallIsCutInTwo`).
- Row reversal is not always its own inverse: it is, except on a body without a final
  newline whose first data row is empty (`Tsv.ReversalIsInvolution`, `Tsv.EmptyRowIsLost`).

## Model

| member | source | states |
|---|---|---|
| StreamModel.PullGathers | src/stream.rs:269-283 | the receive loop gathers the same bytes and error whatever the chunk boundaries, and stops as soon as enough bytes are pending |
| StreamModel.ReadRefines | src/stream.rs:168-297 | one whole read of the handle is one read of a byte string with a cursor, an optional final error and a pinned tail window |
| StreamHandles.StreamHandle.constructor | src/stream.rs:141-158 | a fresh handle stands for the start of the file its messages amount to |
| StreamHandles.StreamHandle.FillPending | src/stream.rs:269-283 | the loop over the channel leaves exactly what the loop function gives |
| StreamHandles.StreamHandle.MaybeMaterialize | src/stream.rs:183-216 | the tail query is issued exactly for the first offset more than 32 MiB past the cursor on a handle with a tail context, and its body is stored row-reversed |
| StreamHandles.StreamHandle.Serve | src/stream.rs:218-296 | the second locked section: stored error, tail hit, seek error, or data from the stream, in that order |
| StreamHandles.StreamHandle.ReadBlocking | src/stream.rs:168-297 | the object moves and answers exactly as the byte string with a cursor it stands for, for every offset, size and tail answer, and issues the tail query exactly when it is due |
| StreamBridge.ChannelStep | src/stream.rs:94-139 | every step keeps: queue and send in flight are exactly the items pulled and not yet received, at most 8 queued |
| StreamBridge.ConservedStep | src/stream.rs:104-139 | every step keeps: delivered, pending and not yet received bytes are the content in order |
| StreamBridge.RefinesStep | src/stream.rs:218-296 | every step without cancellation keeps: all answers so far are the file's answers, and a read in progress will end as one |
| StreamTheorems.ByteConservation | src/stream.rs:104-139 | for every schedule: delivered, pending, queued, in flight and not yet pulled bytes make up the content, and `pos` counts the delivered ones |
| StreamTheorems.EveryScheduleReadsTheFile | src/stream.rs:168-297 | for every chunking and schedule, each answer is what the same list of reads of the plain file gives |
| StreamTheorems.ScheduleIndependence | src/stream.rs:104-139 | chunk boundaries and interleaving cannot be observed through answers, delivered bytes or tail |
| StreamTheorems.BoundedMemory | src/stream.rs:94-128 | with chunks of at most c bytes: 8 queued messages, c-1 pending bytes and 10c-1 undelivered bytes between reads |
| StreamTheorems.ChannelTakesEight | src/stream.rs:94-128 | the bound of 8 is reached: with the channel full a producer that holds a ninth message waits, and goes on once the reader takes one |
| StreamTheorems.ReadsFinish | src/stream.rs:104-139 | while a read waits, some step is possible if and only if it does not wait for a silent upstream; every step uses up a bounded rank, so no deadlock and no endless read |
| StreamTheorems.CancelNeverLost | src/stream.rs:368-383 | once the receiver is dropped, from any state and in any continuation: at most one further item, at most three producer steps, and blocked only while the upstream owes an event |
| StreamTheorems.DroppedHaltCondition | src/stream.rs:104-139 | a producer without a receiver can halt within n further upstream events if and only if no more than n are missing: none when notified, sending or with an event at hand |
| StreamTheorems.NotificationReachesOnlyAWaiter | src/stream.rs:300-302 | a cancel can ever be observed if and only if the producer waits at its select at that moment; otherwise it halts only after pulling everything |
| StreamTheorems.PullForgetsNotification | src/stream.rs:116-121 | a notified waiter that takes a ready chunk and sends it can never observe that notification |
| StreamProperties.NonInterference | src/stream.rs:183-267 | erasing failed seeks, tail reads and the materializing read changes no at-cursor answer and not the final cursor |
| StreamProperties.SmallFilesStayBelowTail | src/stream.rs:229-247 | content and tail together shorter than PSEUDO_EOF keep the cursor out of the tail window in every run |
| StreamProperties.HistoryIsResults | src/stream.rs:168-297 | in every schedule the answers so far are those of the file to the requests so far |
| StreamProperties.ErasingOffCursorReads | src/stream.rs:183-267 | on the bridge, for every two schedules: a client that leaves out its failed seeks, tail reads and the materializing read gets the same answers to the rest, the same bytes and the same cursor |
| StreamProperties.ErrorOrdering | src/stream.rs:223-227 | an error comes after every byte, at most once in a run, and later at-cursor reads are empty |
| StreamProperties.ErrorComes | src/stream.rs:223-290 | an at-cursor read for at least a byte fails if and only if the query failed, every byte is out and no earlier read got the error |
| StreamProperties.StoredErrorMeansDrained | src/stream.rs:270-290 | in every state a stored error implies the upstream is done, and between reads nothing is pending before it |
| StreamProperties.OneTailQuery | src/stream.rs:183-216 | at most one tail query in a run, only for an offset more than 32 MiB past the cursor; its outcome stays |
| StreamProperties.QueryCondition | src/stream.rs:183-190 | which read of a run issues the tail query: on a handle with a tail context, exactly the first for an offset more than 32 MiB past the cursor |
| StreamProperties.FirstTailRead | src/stream.rs:183-247 | that read, anywhere in the window, gets the bytes of the buffer from there |
| StreamProperties.OffCursorExactly | src/stream.rs:229-267 | what a read away from the cursor answers: the buffer's bytes where it reaches, nothing past its end, else an error with cursor and offset; the cursor stays |
| StreamProperties.TailReadsTheBuffer | src/stream.rs:231-247 | consecutive reads from anywhere in the window give the rest of the buffer, cut only by their total size, then nothing |
| StreamProperties.CursorReadIsExact | src/stream.rs:269-295 | an at-cursor read of any schedule returns exactly the file's next bytes, or its error once all bytes are out |
| Tsv.ReverseTsvRows | src/stream.rs:332-366 | the procedure computes the specified row reversal and keeps the length |
| Tsv.ReversalKeepsLength | src/stream.rs:332-366 | length is preserved for every body |
| Tsv.ReversalOfTable | src/stream.rs:328-331 | the header stays, exactly the data rows are reversed, the result is newline terminated |
| Tsv.TerminatedIsTable | src/stream.rs:336-342 | every newline-terminated body is a header with rows |
| Tsv.ReversalIsInvolution | src/stream.rs:332-366 | the exact bodies on which reversal is its own inverse |
| Tsv.EmptyRowIsLost | src/stream.rs:359-364 | a body of that kind: its double reversal differs from it |
| Sql.TwoPassesAreOne | src/driver.rs:323-326 | the two successive replacements are one single-pass escape |
| Sql.StringRoundTrip | src/driver.rs:323-326 | reading a quoted string gives back exactly the string and the text after it |
| Sql.IdentRoundTrip | src/driver.rs:318-320 | reading a quoted identifier gives back the name and the text after it; with backslash escapes in identifiers, if and only if the name has no backslash |
| Sql.SourceRoundTrip | src/driver.rs:445-456 | database, table and partition read back from a query, whatever the partition holds, if and only if the two names survive the identifier reader |
| Sql.StreamPartitionInjective | src/driver.rs:373-380 | different databases, tables or partitions give different queries, whatever they contain |
| Sql.StreamPartitionReads | src/driver.rs:373-380 | a server reads the query as all columns of the rows whose `_partition_id` is the partition, unordered and unlimited, in TabSeparatedWithNames |
| Sql.StreamAllReads | src/driver.rs:365-371 | a server reads the query as all columns of all rows, in TabSeparatedWithNames |
| Sql.DecimalRoundTrip | src/driver.rs:449-456 | the LIMIT in the tail query reads as the number of rows configured |
| Sql.TrimCuts | src/driver.rs:435-443 | trimming cuts exactly the Unicode white space at both ends |
| Sql.TailQueryRoundTrip | src/driver.rs:425-457 | the whole tail query reads back, for every order expression: table, filter column and value, items of the clause, limit and format |
| Sql.TailQueryOfKey | src/driver.rs:417-457 | for a key it asks for the rows of the handle's source, descending by each key column in turn, up to the configured limit |
| Sql.OrderClauseIsPerColumn | src/driver.rs:432-444 | DESC lands on every key column if and only if no column contains a comma |
| Sql.ClauseSortsDescending | src/driver.rs:438-444 | the generated clause reads as descending on each key column in turn |
| Sql.CallIsCutInTwo | src/driver.rs:438-444 | a key column with a comma: the clause it gets, and the one it should get |
| TailMeaning.PerColumnDescIsConverse | src/driver.rs:432-434 | per-column DESC is the exact converse of lexicographic order for every key arity and every total order of the values |
| TailMeaning.TrailingDescIsConverse | src/driver.rs:432-434 | DESC said once at the end is the converse for all rows if and only if the key has at most one column |
| TailMeaning.AnswerIsTopN | src/driver.rs:425-457 | an answer to the query text is right exactly when it is the top rows of the handle's source under per-column DESC, sent as a header and one line a row |
| TailMeaning.TopNReversedIsLastN | src/driver.rs:417-424 | the server's top N read backwards are the last N rows, ascending, none left out greater than one kept |
| TailMeaning.TailBufferIsLastRows | src/stream.rs:316-326 | if the server answers the query text for what it says, the materialized buffer is the header followed by the last rows of the handle's own source, up to the limit, ascending by the key |
| TailMeaning.TailWindowShowsLastRows | src/stream.rs:183-247 | at any point of a run after the first read more than 32 MiB past the cursor, reading the whole tail window returns exactly that |
| InodeTables.InodeTable.constructor | src/inode.rs:20-31 | the root is pinned and the maps are inverses |
| InodeTables.InodeTable.Lookup | src/inode.rs:69-71 | lookup inverts allocation: the path whose inode it is, none exactly for numbers no path has, the root on 1 |
| InodeTables.InodeTable.Allocate | src/inode.rs:33-67 | serial: the path's inode, bound if new at the first fit from its hash up, not below 100, or past the jump exactly when there is none; maps stay inverses; bounded passes |
| InodeProtocol.ProbePasses | src/inode.rs:54-58 | the probing invariant: every slot before the current one on a path's probe is held by other paths |
| InodeProtocol.InvStep | src/inode.rs:33-67 | every atomic step of any thread but the jump keeps the table invariant |
| InodeProtocol.InodesAreUnique | src/inode.rs:33-67 | for any number of threads: no path has two inodes, published entries agree with forward, only the root has inode 1 and low inodes stay reserved |
| InodeProtocol.BindingsStay | src/inode.rs:45-66 | a binding never changes, in any schedule |
| InodeProtocol.SamePathSameInode | src/inode.rs:33-67 | all calls for one path return the same inode, whenever and on whichever thread |
| InodeProtocol.ReturnedIsPublished | src/inode.rs:33-67 | in every schedule a call that has returned has bound and published its path, without a jump with the inode it returned |
| InodeProtocol.CallReturns | src/inode.rs:33-67 | no call waits for another thread: it returns by steps of its own, unless its probe is taken up to the root's slot |
| InodeProtocol.UniqueUnlessCrowded | src/inode.rs:33-67 | for every hash and finite set of paths: some schedule of calls for them binds a path twice, and some probe jumps, if and only if they are crowded at some slot |
| InodeProtocol.BumpMeansCrowded | src/inode.rs:38-44 | a schedule with a jump has called for a crowd of paths that starts in one solid block up to the top |
| InodeProtocol.RaceBindsTwice | src/inode.rs:41-44 | from any table filled to where a probe would jump, two threads racing for its path bind it twice and return two inodes |
| InodeProtocol.RoomMeansNoBump | src/inode.rs:38-44 | if every path called for starts as far below the top as there are paths, no schedule of calls for them jumps or binds twice, however long it is |
| TtlCaches.TtlCache.Get | src/cache.rs:39-51 | serial: a hit exactly when the latest insertion is within the TTL; an entry that gives no hit is evicted, and no other |
| TtlCaches.TtlCache.Insert | src/cache.rs:54-56 | serial: the insertion becomes the latest for its key |
| CacheProtocol.ReadsAreHonest | src/cache.rs:39-56 | under any interleaving a hit is the latest stored value and no older than the TTL, and a miss has one of three reasons |
| CacheProtocol.HitCondition | src/cache.rs:39-51 | exactly when a read hits under interleaving |
| CacheProtocol.RefreshCanBeRemoved | src/cache.rs:44-50 | a racing removal can drop a fresh value, an extra miss |
| Listings.ListingRoundTrip | src/fs.rs:153-163 | a fetch gets the server's names, without those it drops, if and only if none of them contains a character that is escaped in print |
| Listings.LinesReadBack | src/fs.rs:153-163 | the lines of a body are the same whether they end in a newline or a carriage return and one; an unfinished last line counts if it is not empty |
| Listings.KeepInOrder | src/fs.rs:157-162 | a fetch goes through the lines one by one in order, dropping empty ones and, for partitions, "all" |
| Listings.ListingIsEscaped | src/fs.rs:153-163 | what a fetch gets is the names as they were printed, escapes included |
| Listings.EscapedNamesDoNotResolve | src/resolver.rs:55-69 | a name that comes back changed is rejected by the resolver |
| Listings.BackslashIsDoubled | src/driver.rs:328-339 | a name that comes back changed: one backslash is listed as two |
| Listings.CachedListing.Fetch | src/fs.rs:148-207 | a list is the server's at an instant no older than TTL plus query duration; successful queries for a key start more than one TTL after the previous insertion |
| Resolver.ResolvePrint | src/resolver.rs:72-159 | resolving a printed plan gives the plan back |
| Resolver.PrintResolve | src/resolver.rs:72-159 | printing what resolve returns gives back the path, and it is well formed |
| Resolver.ResolveInjective | src/resolver.rs:90-158 | distinct accepted paths have distinct plans, and none streams the partition "all" |
| Mount.DatabasePath | src/resolver.rs:64-111 | every string of 1 to 192 letters, digits and underscores names a database; any other is an invalid identifier |
| Mount.TablePath | src/resolver.rs:64-121 | the same for tables, with both names in the error |
| Mount.FilePath | src/resolver.rs:56-157 | the files of a table: three fixed ones and, for every 1 to 192 letters, digits, underscores, hyphens and dots, a partition; else the error |
| Mount.OtherPath | src/resolver.rs:72-159 | every other path: the two directories above, or not found, or an invalid identifier |
| Mount.OutcomeByPath | src/fs.rs:129-346 | what a lookup of one component answers on a snapshot, path by path: the listing it depends on, the type and size, and each error |
| Mount.TableFileNeedsTable | src/fs.rs:266-275 | a file every table has is found exactly when its table is |
| Mount.ContentsByPath | src/fs.rs:383-435 | what every path lists on a snapshot, entry by entry, or its error; a failed partition listing is none |
| Directory.LookupAgreesWithReaddir | src/fs.rs:307-346 | in a verified directory an ordinary name is found exactly when it resolves and is listed, with the same type |
| Directory.JoinComponents | src/fs.rs:323 | a relative name adds its components in order, without empty ones and dots; an absolute one stands for itself |
| Directory.ListedIsFoundWhenAccepted | src/fs.rs:324-346 | in a verified directory an ordinary listed name is found if and only if it is one the resolver accepts, with the type it was listed with |
| Directory.NoNameTwice | src/fs.rs:389-435 | no name is listed twice exactly when the server's names are distinct and clash with no fixed name |
| Directory.PagingIsComplete | src/fs.rs:443-455 | following the offsets lists the entries once and in order, whatever the reply sizes; only an entry larger than a whole reply ends the listing early |
| Directory.PageFills | src/fs.rs:443-455 | a reply is as full as it can be: its entries fit, and with the next one they would not |
| ClickFses.ClickFs.Lookup | src/fs.rs:307-346 | success exactly when the path resolves and exists, on its own inode and with its attributes; otherwise the first error |
| ClickFses.ClickFs.BuildEntries | src/fs.rs:389-435 | the pushed entries are those of the directory's plan; a failed partition listing is not an error |
| ClickFses.ClickFs.Emit | src/fs.rs:443-453 | the reply is the entries that fit in its bytes, each with its offset and its path's inode; the entry that does not fit has its inode too |
| ClickFses.ClickFs.Readdir | src/fs.rs:366-456 | unknown inode, unresolvable path and non-directory errors, or one page of the listing |
| ClickFses.ClickFs.ReadWhole | src/fs.rs:442-455 | a client that follows the returned offsets through `readdir` gets every entry once, in order, on the inode its path keeps |
| CachedFses.CachedFs.Lookup | src/fs.rs:252-346 | path by path, for every cache state and server: found exactly when the name is acceptable and the object is on the one listing that settles it, young in its cache or just answered; type, size, inode and each error |
| CachedFses.CachedFs.Readdir | src/fs.rs:366-456 | path by path, for every cache state and server: as many entries as fit of the listing young in its cache or just answered, on their inodes; a failed query for databases or tables is the reply's error |
| CachedFses.NamesAreShown | src/fs.rs:383-455 | a reply from offset 0 with room enough has an entry for every name of the listing, in order, after the fixed ones |
| CachedFses.CachedFs.PerformAll | src/fs.rs:148-207 | any operations in any order keep every binding, and every cached listing that stays within its TTL |
| CachedFses.ListedIsVerified | src/fs.rs:252-288 | a name that a listing contributed to a directory is verified by that same listing, whatever the other listings say |
| CachedFses.CachedFs.ListThenLookup | src/cache.rs:3-6 | on a changing server, with any operations between: a name `readdir` listed is found by `lookup` while the listing it came from is within its TTL, with the same inode and type |

## Left out

- HTTP, TLS, compression, authentication, `KILL QUERY` and logging: the server is a list of items, or a listing that depends on time.
- `src/main.rs`, `src/readme.rs`, `src/error.rs`: command line, Markdown rendering and fixed errno tables.
- `open`, `release`, `getattr`, special files, `statfs` and the read-only stubs of `src/fs.rs`: settled by one reading.
- `fetch_tail_order_expr`: JSON parsing; the order expression is a parameter.
- Two overlapping reads of one handle: FUSE does not issue them; both could pass the tail check at `src/stream.rs:183-190` and query twice.
- InodeTables.InodeTable.Allocate: requires that entries plus bump counter stay below 2^64; beyond that the source's loop may not end.
- Sql.ClauseSortsDescending: the reader of the clause knows commas and DESC, not nested expressions, collations or NULL ordering.
- TailMeaning.TailBufferIsLastRows: says nothing for `tuple()` or an empty key, where the server's order is unspecified.
- ClickFses.ClickFs.ReadWhole: the directory's listing is one snapshot; a listing that expires between two replies may change under the offsets.
- CachedFses.CachedFs.ListThenLookup: not for `.schema`, `README.md` and `all.tsv`, which `lookup` verifies by the table listing and not by the one just read.
- Non-UTF-8 names: `lookup` refuses them before anything modelled here.
