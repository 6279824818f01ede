# Delilah, proved

Delilah is a DuckDB extension that reads DBISAM tables over the Exportmaster wire protocol: it turns
DuckDB scans into DBISAM SQL, opens a server-side cursor, streams record blocks, decodes them and hands
them to DuckDB in vectors of 2048 rows. This project models that path in Dafny and proves what it is for.

* **Filters** (`FilterAst`, `DbisamSql`, `DbisamLexing`, `DbisamParsing`, `Statements`, `FilterRender`, `FilterMeaning`,
  `TextPushdown`, `CutLists`, `ExprMeaning`, `NullRows`, `FilterSetMeaning`). Source expressions with ANSI three-valued
  logic over what DuckDB is shown; the renderers that produce text; a lexer, a parser and an evaluator of
  DBISAM SQL over the stored bytes, built from the NULL audit table, and a reader of whole statements. When
  pushing a filter down keeps its meaning, exactly.
* **Cursor and streaming** (`Transports`, `Cursor`, `Polls`, `CursorTrace`, `ServerStreams`, `DriveCursor`,
  `Client`, `BlobResolution`, `DecodedStream`, `Query`, `AttachedScan`, `Projection`, `TableScan`).
  A server is any function from the requests so far to a reply, lost replies included; the statements hold for
  all of them, or for all that stream a result in the session opened for its statement, whatever blocks they
  cut it into and whatever they do elsewhere. `SampleTables`, `SampleServer` and `SampleScans` are such a
  server, which keeps to the protocol and refuses reads outside a session.
* **LIMIT pushdown** (`Optimizer`, `LimitPushdown`). Plans as trees whose scans own a `Bind` object.
* **Catalog** (`Catalog`, `CatalogSafety`). Threads, two mutexes and a nondeterministic server, step by
  step, with what the server answered kept beside what callers are told.
* **Formats and bytes** (`Bytes`, `Wire`, `Msg`, `CursorInfos`, `Response`, `BatchRoundTrip`, `Framing`,
  `Schema`, `Row`, `Calendar`, `Blob`, `Text`, `Crypto`).

Code that works by changing things is a class or a method with loops, proved equal to a function of its
inputs or of the old state; what the code promises is proved of that function. `dafny verify dfyconfig.toml`
checks everything.

Where code and documentation disagree the model follows the code:

* The head comment of `dbisam_optimizer.cpp` (lines 13-15) says an OFFSET given by an expression is left
  alone. Lines 63-66 treat it as 0 and still set a cap. `LimitPushdown.PushedLimitIsExact` says when that is
  harmless.
* Text is stored as Windows-1252 and shown as UTF-8 (`text.cpp`, lines 83-93), but a literal leaves as its
  UTF-8 bytes (`dbisam_filter_render.cpp`, lines 74-84; `client.cpp`, lines 96-118): nothing transcodes outward.
  So a pushed `=` loses rows with accented text and `<>` lets them in (`TextPushdown.AccentIsLost`).
  `TextPushdown.LiteralIsExact` and `CutLists.CutListIsExact` say for which literals, lists, operators and LEFT
  widths both sides agree; `NullRows.TextComparison`, `NullRows.TextLists` and
  `FilterSetMeaning.TextConstantIsExact` carry that to the rendered text. The comment on LEFT
  (`dbisam_filter_render.cpp`, line 235) equates bytes and characters, which fails for stored bytes that happen
  to be UTF-8; `TextPushdown.CutsAreExact` and the widths in `SafeLiteral` account for it.
* DBISAM has no NULL truth value, so boolean operands, columns in NOT IN lists and two sides over the column
  can go wrong on the NULL row and on no other (`NullRows.AgreesOffNull`). For each shape `NullRows` says exactly when.
* The repository's README (lines 157-158) lists `NOT IN` among the comparisons that are safe as they are.
  The audit table (`dbisam_filter_render.cpp`, line 9) and the renderer say otherwise.
* `is_valid_utf8` is looser than RFC 3629; `Text.WellFormedOutput` states exactly what its output is.
* A plain reply keeps the envelope's zero padding, and the single-row batch reader then refuses a batch with
  one to three pad bytes behind it (`BatchRoundTrip.PaddedBatch`, `Framing.PlainBatchReply`).
* The comment on the date epoch (`row.cpp`, lines 42-52) first counts 718685 days; the constant it settles on is
  the calendar's (`Calendar.EpochsAreDays`).
* An OR without children, or a conjunction without any, renders to `()`. The scan sends it, and what it sends is
  then no statement (`Projection.SelectIsRead`).
* A caller that goes on after a `next_block` that threw sends ReadFirst again (`CursorTrace.Lifetime`).

What is assumed is explicit in the contracts: `inflate` undoes `deflate`, a block permutation has an
inverse, binary64 decoding is a parameter and its rounding is near, and of servers only what they do in the session
opened for the statement at hand: the comparison of the two cursor loops needs handshakes without rows and full
blocks there, queries and scans complete where the reply to Prepare holds columns, the cursor opens and the rows are
`DecodedStream.Decodable`. `SampleServer` meets all of it for every set of tables that fit 32-bit lengths.

## Model

| member | source | states |
|---|---|---|
| `NullRows.RenderedTextKeepsMeaning` | src/storage/dbisam_filter_render.cpp:166-292 | the text of a condition, lexed, parsed and evaluated by the server on stored bytes under DBISAM's NULL rules, includes a row exactly when the source is TRUE under ANSI logic of what DuckDB is shown: on every row that is not NULL and whose text both sides read alike, whatever operands and lists the condition has, and on the NULL row exactly where NullSame holds |
| `NullRows.NullRowDecides` | src/storage/dbisam_filter_render.cpp:166-292 | so a condition whose text and constants are compared alike keeps its meaning on all rows if and only if it does on the NULL row; the rows on single shapes below are under the same hypothesis on text unless they say otherwise |
| `NullRows.SameOffNull` | src/storage/dbisam_filter_render.cpp:178-292 | on every row that is not NULL the rendered tree of a truth value has the very value ANSI logic gives the source: boolean operands, columns in lists and all |
| `NullRows.AgreesOffNull` | src/storage/dbisam_filter_render.cpp:178-292 | the same for conditions with bare values in them, where TRUE is what counts |
| `ExprMeaning.TreeEvaluates` | src/storage/dbisam_filter_render.cpp:178-292 | the intended tree of any condition evaluates, on every row and under every dialect, to what Server reads off the source: the IS NOT NULL parts narrow `<>` and NOT IN to rows whose sides are not NULL |
| `ExprMeaning.OperandMatches` | src/storage/dbisam_filter_render.cpp:178-292 | by induction over nested AND, OR, comparisons, IN, NOT IN, IS NULL: off the NULL row every truth value has its ANSI value on the server |
| `NullRows.TwoColumnSides` | src/storage/dbisam_filter_render.cpp:186-208 | two value sides that both use the column, from the rendered text on: kept on all rows if and only if their cuts are compared alike (SafeCuts) and the operator is `<>` or the dialect does not count NULL against NULL as true |
| `NullRows.OneColumnSide` | src/storage/dbisam_filter_render.cpp:186-208 | one such side at most: always kept |
| `NullRows.NullTestOfCondition` | src/storage/dbisam_filter_render.cpp:253-261 | IS NULL and IS NOT NULL of any truth value: kept if and only if that is not NULL on the NULL row |
| `NullRows.ComparedConditions` | src/storage/dbisam_filter_render.cpp:186-208 | any comparison whose sides are truth values or constants, in either order: kept if and only if on the NULL row it comes out false where ANSI has a NULL side, and alike where it has none |
| `NullRows.ComparedKeptConditions` | src/storage/dbisam_filter_render.cpp:186-208 | if the operands keep their own meaning that is read off their ANSI values: with NULL taken as FALSE the comparison must come out false wherever one of them is NULL |
| `NullRows.ConditionAgainstColumn` | src/storage/dbisam_filter_render.cpp:186-208 | a truth value against the column, in either order, is always kept |
| `NullRows.ValueLists` | src/storage/dbisam_filter_render.cpp:262-284 | lists of any values: IN is always kept; NOT IN if and only if the probe uses the column, or no item does, or the probe is one of the list's constants |
| `NullRows.TruthLists` | src/storage/dbisam_filter_render.cpp:262-284 | lists with truth values as probe or items, values among them or not: always kept if the probe uses the column; else if and only if on the NULL row the server finds the probe exactly where ANSI logic is sure of it |
| `NullRows.KeptTruthLists` | src/storage/dbisam_filter_render.cpp:262-284 | if those truth values keep their own meaning that is read off their ANSI values, NULL taken as FALSE |
| `NullRows.ConjunctionsKeep` | src/storage/dbisam_filter_render.cpp:210-231 | a conjunction of conditions that keep their meaning on the NULL row keeps its own |
| `NullRows.FragmentIsKept` | src/storage/dbisam_filter_render.cpp:178-292 | a fragment that can be read off the expression is kept on the NULL row under every dialect |
| `NullRows.TextComparison` | src/storage/dbisam_filter_render.cpp:186-208 | from the rendered text on: the column, or LEFT of it, against a text keeps its meaning on all rows if and only if the text is safe under the operator and the width |
| `NullRows.TextLists` | src/storage/dbisam_filter_render.cpp:262-284 | the same for IN and NOT IN over any list of texts, as in `left(col, 1) IN (...)`: kept on all rows if and only if every text of the list is safe under the width |
| `TextPushdown.LiteralIsExact` | src/storage/dbisam_filter_render.cpp:74-84 | for every operator, LEFT width and well-formed literal: the server, comparing stored bytes with the literal's UTF-8 bytes, agrees with DuckDB, comparing the decoded text, on all stored bytes if and only if SafeLiteral holds, which is read off the literal |
| `CutLists.CutListIsExact` | src/storage/dbisam_filter_render.cpp:262-284 | LEFT of a column, by any width or none, looked up in a list of well-formed literals: the server's bytes and DuckDB's characters are matched alike on all stored bytes if and only if every literal of the list is safe by itself |
| `TextPushdown.RecodedIsShown` | src/protocol/text.cpp:83-93 | that condition, computed from the literal alone, says that some bytes that are not UTF-8 are shown as the literal |
| `TextPushdown.CutsAreExact` | src/storage/dbisam_filter_render.cpp:233-248 | LEFT counts bytes on the server and characters in DuckDB: two cuts of one column are compared alike on all stored bytes if and only if SafeCuts says so, by operator and widths |
| `TextPushdown.AsciiLiteral` | src/storage/dbisam_filter_render.cpp:74-84 | a literal that is ASCII as far as LEFT reaches is compared alike with every stored text under every operator, order included |
| `TextPushdown.AsciiIsShown` | src/protocol/text.cpp:83-93 | ASCII bytes are shown unchanged and cut alike |
| `TextPushdown.AccentIsLost` | src/storage/dbisam_filter_render.cpp:74-84 | the input that shows it: the byte E9 is shown as the bytes C3 A9; `=` with that text loses its row and `<>` lets it in |
| `Text.TakeLeadsIsTakeChars` | src/storage/dbisam_filter_render.cpp:233-248 | on well-formed text, cutting before the n-th lead byte is taking the first n characters |
| `FilterMeaning.ExprTextIsSpelling` | src/storage/dbisam_filter_render.cpp:178-292 | an expression renders if and only if Renderable says so, and then to the spelling of its intended compensated tree |
| `FilterMeaning.ExprTextParses` | src/storage/dbisam_filter_render.cpp:178-292 | the rendered text parses back to the intended tree exactly when it has no empty conjunction, and to nothing otherwise |
| `FilterMeaning.RenderabilityIgnoresColumn` | src/storage/dbisam_table_entry.cpp:449-464 | an expression renders with one column name if and only if it renders with any other |
| `FilterRender.RenderDbisamExpression` | src/storage/dbisam_filter_render.cpp:178-292 | the recursive renderer computes ExprText, NULL compensation and refusals included |
| `FilterRender.RenderList` | src/storage/dbisam_filter_render.cpp:220-230 | the loops over children and list items give the joined text, or nothing if any item has none |
| `FilterRender.QuoteDbisamIdent` | src/storage/dbisam_filter_render.cpp:60-70 | the loop encloses a name in double quotes with embedded quotes doubled |
| `FilterRender.QuoteWith` | src/storage/dbisam_filter_render.cpp:74-84 | the same for either quote character |
| `FilterRender.RenderDbisamFilter` | src/storage/dbisam_filter_render.cpp:314-405 | the table-filter renderer computes FilterText for every filter shape |
| `FilterRender.RenderAnd` | src/storage/dbisam_filter_render.cpp:335-355 | an AND drops skippable children that do not render, fails on any other, and fails if all were dropped |
| `FilterRender.RenderOr` | src/storage/dbisam_filter_render.cpp:388-401 | an OR renders only if every child does |
| `FilterRender.RenderIn` | src/storage/dbisam_filter_render.cpp:365-379 | an IN list renders only if it is non-empty and every value does |
| `FilterRender.RenderDbisamFilterSet` | src/storage/dbisam_filter_render.cpp:426-470 | throws exactly when a member the engine relies on is unnamed or has no rendering, with the error of the first such member; otherwise the joined text and the applied columns in order. What the engine relies on is told by the kinds of filters: all but optional, dynamic and bloom filters and ANDs of nothing else |
| `FilterRender.SkippableIsExact` | src/storage/dbisam_filter_render.cpp:298-313 | the renderer's test for what may be dropped tells exactly these apart from the rest, through ANDs of any depth |
| `FilterSetMeaning.FilterSetSandwich` | src/storage/dbisam_filter_render.cpp:426-470 | when rendering succeeds, on a row whose stored values each rendered member is Faithful to (text read alike, the NULL row kept): all filters TRUE of what is shown implies the WHERE clause TRUE of what is stored, which implies that of every filter what the scan must enforce is TRUE: of an AND all children, of an OR one, of an optional, dynamic or bloom filter nothing, of any other all of it |
| `FilterSetMeaning.PlainSetSandwich` | src/storage/dbisam_filter_render.cpp:426-470 | the same on every row under every dialect for filters that Plain accepts, a condition read off the filters alone: expressions of the fragment and safe texts |
| `FilterSetMeaning.FilterSandwich` | src/storage/dbisam_filter_render.cpp:298-405 | the same, row by row, for one nested filter |
| `FilterSetMeaning.PlainIsFaithful` | src/storage/dbisam_filter_render.cpp:298-405 | what Plain accepts is faithful to every stored value under every dialect |
| `FilterSetMeaning.TextConstantIsExact` | src/storage/dbisam_filter_render.cpp:321-334 | a table filter comparing with a text keeps its meaning on all rows, from the rendered text on, if and only if the text is safe under the operator |
| `FilterSetMeaning.TextListIsExact` | src/storage/dbisam_filter_render.cpp:365-379 | an IN filter over texts keeps its meaning on all rows if and only if every text is safe |
| `FilterSetMeaning.FilterTextIsSpelling` | src/storage/dbisam_filter_render.cpp:314-405 | a filter renders if and only if FilterRenders says so, and then to its intended tree's text |
| `FilterSetMeaning.JoinedTextParses` | src/storage/dbisam_filter_render.cpp:464-467 | the unparenthesised join of the members parses as the conjunction of their trees |
| `FilterSetMeaning.BooleanOperands` | src/storage/dbisam_filter_render.cpp:186-261 | boolean operands of `<>` and IS NULL render, and let a NULL row in or out wrongly: a concrete row for each; NullTestOfCondition and ComparedConditions say exactly when |
| `FilterSetMeaning.ColumnInNotInList` | src/storage/dbisam_filter_render.cpp:262-284 | a column inside a NOT IN list renders uncompensated and includes a row ANSI excludes: a concrete row; ValueLists says exactly when |
| `FilterSetMeaning.EmptyConjunction` | src/storage/dbisam_filter_render.cpp:210-231 | an empty conjunction renders to an empty pair of parentheses, which does not parse |
| `DbisamParsing.SpellParses` | src/storage/dbisam_filter_render.cpp:166-177 | for every well-shaped tree, tokenizing and parsing its text gives the tree back if and only if no conjunction in it is empty; AND binds tighter than OR |
| `DbisamLexing.LexSpell` | src/storage/dbisam_filter_render.cpp:60-84 | the text of any tree splits into exactly its tokens, for every identifier and text literal |
| `DbisamLexing.LexQuoted` | src/storage/dbisam_filter_render.cpp:60-84 | a quoted name or text is one token and its doubled quotes are undone, whatever follows |
| `DbisamLexing.LexInt` | src/storage/dbisam_filter_render.cpp:94-109 | an integer literal, negative ones included, is one token with its value |
| `Cursor.OpenRunner` | src/protocol/cursor.cpp:137-183 | succeeds exactly when one of the first 100 replies is ready and SetToBegin gets a reply; otherwise Execute alone if that failed, else polls, perhaps SetToBegin, and the three cleanup requests |
| `Polls.NotReadyIsExact` | src/protocol/cursor.cpp:21-28 | a packed reply asks for another poll if and only if its request code is the polling sentinel or its first unit is the two bytes of result code 3, whatever follows |
| `Polls.CodeDecides` | src/protocol/cursor.cpp:21-28 | so for every request and result code of 16 bits: code 3 or the sentinel, and nothing else |
| `Polls.SentinelIsExact` | src/protocol/cursor.cpp:21-28 | the sentinel is told by two bytes of any body; a body below 13 bytes asks for another poll only by it |
| `Polls.ReadableIsExact` | src/protocol/cursor.cpp:34-40 | a reply is looked into if and only if it holds six bytes behind its header and is not the sentinel; any other ends the runner's cursor, and brings the callback loop nothing without stopping it |
| `Polls.OpenPolled` | src/protocol/cursor.cpp:137-172 | a server that answers code 3 k times and then another code gets Execute, exactly k polls and SetToBegin if k is below 100; else 99 polls and the cleanup, and the error |
| `Cursor.CursorRunner.constructor` | src/protocol/cursor.cpp:137-147 | a new runner has read nothing and is not at the end |
| `Cursor.CursorRunner.NextBlock` | src/protocol/cursor.cpp:190-232 | one ReadFirst or ReadNext unless the cursor has ended, then nothing; the new state and the block, a malformed reply thrown, an unreadable or empty one an end of cursor |
| `Cursor.CursorRunner.Cleanup` | src/protocol/cursor.cpp:174-188 | Close, Reset, RemoveAll attempted once each, in order, whatever the replies |
| `Cursor.ProcessBodyOf` | src/protocol/cursor.cpp:34-65 | the batch loop over a body computes ProcessBody; it ends because every batch advances the walker |
| `Cursor.DeliverRows` | src/protocol/cursor.cpp:50-61 | rows reach the callback in order with their own bookmarks until the target is met or the callback declines |
| `CursorTrace.Lifetime` | src/protocol/cursor.cpp:137-232 | the whole log of a runner, throws at any step included: Execute, at most 99 polls, SetToBegin, ReadFirst until one gets a reply, ReadNext until one ends the cursor, then cleanup once and last; more than one ReadFirst exactly when the caller goes on after a lost one |
| `CursorTrace.Reads` | src/protocol/cursor.cpp:190-232 | the read requests of any number of next_block calls have that shape |
| `CursorTrace.NextReads` | src/protocol/cursor.cpp:190-232 | after the first block only ReadNext, none after a reply that ends the cursor |
| `DriveCursor.Drive` | src/protocol/cursor.cpp:77-135 | on any server it halts within target/batch + 113 requests, every read of them for at least one row and at most a batch, and delivers no more than `target` rows and none after the callback declined; on one that cooperates in this statement's session it delivers exactly the first `target` rows of the result, or those up to the first after which the callback declines |
| `DriveCursor.DeliverAll` | src/protocol/cursor.cpp:50-61 | rows are delivered up to and including the first after which the callback declines, and the loop stops exactly if there is one |
| `DriveCursor.BodyHeeds` | src/protocol/cursor.cpp:34-65 | whatever the bytes of a body: with it no more than `target` rows are delivered, none after the callback declined, and it goes on only if the callback did not |
| `DriveCursor.Begin` | src/protocol/cursor.cpp:86-112 | at most 102 handshake requests, none of which reads rows; if the handshake is quiet and becomes ready no row is delivered and the statement's cursor is open |
| `DriveCursor.FetchRest` | src/protocol/cursor.cpp:122-134 | at most target/batch + 10 further reads, which bring every missing row if the session streams the result in full blocks |
| `DriveCursor.CapIsEnough` | src/protocol/cursor.cpp:123 | the cap of target/batch + 10 batches lies beyond the target, so it is never why the loop stops |
| `DriveCursor.BlockBody` | src/protocol/cursor.cpp:34-65 | a reply with one block delivers exactly its rows, up to the one after which the callback declines, and stops exactly if it ends the cursor or the callback declined |
| `DriveCursor.ReadFull` | src/protocol/cursor.cpp:114-133 | one read of a session with full blocks brings the next n rows or all that are left |
| `ServerStreams.ReadStep` | src/protocol/cursor.cpp:190-232 | one read of a session that streams the result, ReadFirst first and ReadNext from then on: it extends what was delivered, within the result, ends the cursor only when all is out, and stays in the session |
| `ServerStreams.OtherRequests` | src/protocol/client.cpp:228-265 | blob requests leave the stream where it is and stay in the session |
| `SampleServer.SampleCooperates` | src/protocol/cursor.cpp:77-232 | a server with a table for every statement it knows, which polls with the sentinel and with code 3 and refuses reads outside a session, answers byte for byte so that everything the comparison of the two loops assumes holds, whatever the connection was used for before; its reply to Prepare is parsed to the table's columns |
| `SampleServer.RefusesOutsideSessions` | src/protocol/cursor.cpp:86-119 | that server answers reads and blob requests only while a cursor is open |
| `SampleServer.CleanupEnds` | src/protocol/cursor.cpp:174-183 | and after cleanup none is |
| `SampleServer.SampleBlobsAreStable` | src/protocol/client.cpp:237-252 | it meets what is assumed of stable blobs, each payload by record number, digest, key and ordinal read off the slot |
| `SampleServer.SampleCompletes` | src/protocol/client.cpp:131-139 | every statement it knows completes: leniently always, strictly if its rows decode |
| `SampleTables.SchemaBack` | src/protocol/schema.cpp:72-89 | its reply to Prepare, a header and a block for each column, is parsed back to the columns |
| `SampleTables.BlockReplied` | src/protocol/response.cpp:71-111 | its reply to a read is one block of exactly the rows it stands for, marked as the end with the last |
| `SampleScans.CountedAsStreamed` | src/storage/dbisam_table_entry.cpp:164-271 | for every table that fits into replies, over one server that knows the table and a COUNT statement: the counted and the streamed scan both complete, with the same vectors |
| `SampleScans.SampleAnswersSelect` | src/storage/dbisam_table_entry.cpp:214-271 | and what a whole table scan assumes of its statement can be met, for every statement over a table and columns of a database |
| `SampleScans.SampleRefuses` | src/protocol/client.cpp:131-134 | a text that is no statement is refused by that server as the scan assumes |
| `Transports.Transport.SendRecv` | src/protocol/framing.cpp:166-170 | the attempt is logged, and the reply is the server's to the log so far |
| `Client.DecodeBatchWithBlobs` | src/protocol/client.cpp:147-274 | the two loops compute DecodeBatch: requests sent and rows or exception |
| `Client.CollectTasks` | src/protocol/client.cpp:207-224 | a decoded row with its blob handles blanked, and a task for each handle that is not all zero in a row long enough to name its record |
| `Client.ResolveBlobs` | src/protocol/client.cpp:228-265 | the fetch loop, with a flush every fifty tasks outside the try block |
| `Client.FetchOne` | src/protocol/client.cpp:238-264 | one task: open, once more with the echoed slot length if it differs, store, release |
| `Client.OpenOne` | src/protocol/blob.cpp:129-134 | build the slot, send it, parse the reply |
| `Client.DecodeRowOf` | src/protocol/client.cpp:180-204 | a row is decoded from its column data if it is long enough |
| `Client.CellsBehindHeader` | src/protocol/client.cpp:161-199 | for contiguous columns and cells they can hold: behind any header of as many bytes as the first column's offset and before any tail the row decodes to exactly those cells |
| `Client.ShortRowIsTruncated` | src/protocol/client.cpp:180-190 | a row that ends before the last of its cells is truncated |
| `Client.AllZero` | src/protocol/client.cpp:209-212 | true exactly when every byte of the handle is zero |
| `Client.TasksAscend` | src/protocol/client.cpp:167-226 | tasks ascend strictly by row and column, so no two address the same cell, and each takes its key and digest from a row that decoded |
| `Client.TasksInRange` | src/protocol/client.cpp:248 | every task addresses a cell that exists |
| `BlobResolution.RowsKeepTheirPlace` | src/protocol/client.cpp:176-226 | output row i comes from input row i even after malformed rows: empty if it does not decode, else its cells as decoded, blob cells NULL or a payload |
| `BlobResolution.NoHandleLeft` | src/protocol/client.cpp:207-224 | no unresolved handle is left in a blob column |
| `BlobResolution.PayloadOfCell` | src/protocol/client.cpp:233-252 | every handle that names a record has exactly one task and that task's payload is in its cell, or NULL if the fetch failed |
| `BlobResolution.PayloadsLand` | src/protocol/client.cpp:233-252 | each payload lands where its task points and every other cell is left alone |
| `BlobResolution.FetchRequests` | src/protocol/client.cpp:238-252 | a task sends at most two OpenBlobs, the second only if the echoed length differs and with exactly that length; what is stored is the payload of the last reply, and then and only then a FreeBlob of the slot it echoed follows |
| `BlobResolution.FlushesEveryFifty` | src/protocol/client.cpp:228-252 | a fetch loop that completes sends its tasks' requests one task after the other, a FreeAllBlobs before every fiftieth and nowhere else |
| `BlobResolution.StrictIsLenient` | src/protocol/client.cpp:183-204 | a strict run that completes is the lenient run on the same replies, requests and rows alike |
| `BlobResolution.DecodeReadsNothing` | src/protocol/client.cpp:228-265 | decoding a batch sends OpenBlob, FreeBlob and FreeAllBlobs only, so it leaves the cursor alone |
| `DecodedStream.DecodedInPlace` | src/protocol/client.cpp:276-301 | over a whole stream decoded row i comes from raw row i; none is dropped, added or moved |
| `DecodedStream.StableStream` | src/protocol/client.cpp:276-301 | if the result's blobs do not change while its cursor is open (nothing is assumed where there is no blob column), a decoded stream is a function of its raw rows alone |
| `DecodedStream.StableBatch` | src/protocol/client.cpp:147-274 | under the same assumption so is a batch: what was sent before does not matter |
| `DecodedStream.FinalCells` | src/protocol/client.cpp:207-252 | what a decoded row is, read off the record: every cell as stored, a blob handle replaced by the blob of the number in the bookmark's last four bytes, the digest in header bytes 9 to 24, the first column's bytes and the column's place counted from 1, and a handle of zeros by NULL |
| `DecodedStream.BatchDecodes` | src/protocol/client.cpp:147-274 | when a block of the result decodes, anywhere in its session: flushes that get a reply, if there are blobs, are enough for lenient decoding whatever becomes of the fetches; strict decoding also needs rows that decode and answers to requests for the result's own blobs |
| `DecodedStream.ResolveCompletes` | src/protocol/client.cpp:228-265 | the fetch loop under those conditions, from any task on |
| `Query.NextDecoded` | src/protocol/client.cpp:291-293 | the next block decoded; delivered rows stay a prefix of the result, complete exactly at the end, and the session goes on; it succeeds whenever the result is Decodable |
| `Query.QueryRows` | src/protocol/client.cpp:285-301 | exactly the first `target` rows of the result (all for 0), each decoded in place; it ends on every streaming server, and with rows whenever they are Decodable |
| `Query.StartStreaming` | src/protocol/client.cpp:131-139 | prepare, parse the schema out of the reply, open the cursor: it succeeds exactly if the reply holds columns and the cursor opens, with those columns and their record size; a lost reply or one without columns is the exception that says so, and nothing further is sent |
| `Query.CooperatingOpens` | src/protocol/cursor.cpp:137-172 | a server that becomes ready and answers the handshake opens a runner, at its first ready reply |
| `Query.RunQuery` | src/protocol/client.cpp:285-301 | query_decoded from Prepare to cleanup, on a connection used for anything before: the columns of the reply, the first `target` rows of the statement's result decoded in place; a reply that is lost or has no columns fails it; it succeeds whenever the statement Completes |
| `Query.DriveQuery` | src/protocol/cursor.cpp:77-135 | the same statement over the callback loop, with the columns of the reply |
| `Query.FastAgreesWithSimple` | src/protocol/cursor.cpp:77-232 | a reply to Prepare that is lost or has no columns fails both alike; else, on a cooperating server, the callback loop delivers all[..min(target, n)], or those up to the one after which the callback declines, a query that completes holds the same columns and exactly those rows decoded and then the rest, and it completes whenever the rows are Decodable |
| `Query.BatchSizeDoesNotMatter` | src/protocol/client.cpp:285-301 | over stable blobs, if there are any, two queries that complete return the same columns and rows, whatever their batch sizes and the server's blocks; both complete if the statement can be prepared and opened and its rows are Decodable |
| `Blob.BuildSlot` | src/protocol/blob.cpp:48-76 | the in-place writes produce the slot layout, zero tail included, or fail exactly when it does not fit |
| `Blob.SlotNamesRecord` | src/protocol/blob.cpp:31-76 | number, digest and key can be read off a slot, the number from four places, and the rest of it is the two flag bytes and zeros |
| `Blob.PhysRoundTrip` | src/protocol/blob.cpp:78-95 | the record number stored in the last four bytes of a bookmark is recovered |
| `Blob.ParseOpenBlobResponse` | src/protocol/blob.cpp:97-127 | three units, the second four bytes giving the length of the third; every error path |
| `Blob.ReplyRoundTrip` | src/protocol/blob.cpp:97-127 | a packed reply gives back echo and payload of any lengths |
| `Blob.RepliesAreExact` | src/protocol/blob.cpp:97-127 | three units are a reply exactly if the second has four bytes that say how long the third is; any other three are refused |
| `Blob.TwoUnitsAreMissingOne` | src/protocol/blob.cpp:97-127 | and so is a body with fewer, for the reason that applies |
| `AttachedScan.StreamTable` | src/storage/dbisam_table_entry.cpp:252-271 | over any server whose cursor for this statement streams `all`, empty blocks included, and keeps the blobs stable if there are blob columns: a completed scan shows exactly the rows of `all` in order, in the columns of the reply to Prepare, with row identifiers 0, 1, 2, ...; neither batch size nor blocks appear in the result; a reply without columns fails it; it completes if the statement can be prepared and opened and its rows are Decodable |
| `AttachedScan.MalformedShowsNull` | src/storage/dbisam_table_entry.cpp:413-438 | a row that does not decode is shown as NULLs, and its identifier is counted like any other |
| `AttachedScan.RunScan` | src/storage/dbisam_table_entry.cpp:359-443 | calling Execute until it gives nothing shows every row exactly once, in order, correctly numbered; a counted scan as many as counted; it completes whenever the rows are Decodable |
| `AttachedScan.ScanState.Execute` | src/storage/dbisam_table_entry.cpp:359-443 | the next rows, at most 2048, numbered on from the last chunk; a chunk is empty only when all is emitted and from then on always; it succeeds whenever the rows are Decodable |
| `AttachedScan.ScanState.Refill` | src/storage/dbisam_table_entry.cpp:382-408 | the pull loop skips empty blocks and ends with rows or with the cursor; it succeeds whenever the rows are Decodable |
| `AttachedScan.ScanState.Pull` | src/storage/dbisam_table_entry.cpp:391-402 | one block decoded and taken over, or the end noted; it succeeds whenever the rows are Decodable |
| `AttachedScan.ScanState.EmitBatch` | src/storage/dbisam_table_entry.cpp:410-442 | the next rows of the current batch, batch offset and total moved on by as many |
| `AttachedScan.ScanState.EmitCount` | src/storage/dbisam_table_entry.cpp:364-380 | the synthetic path: only row identifiers, as many as are left |
| `AttachedScan.ScanState.Fill` | src/storage/dbisam_table_entry.cpp:413-439 | each output vector shows its SELECT position, or identifiers, or NULL where a row has no such cell |
| `AttachedScan.CountTable` | src/storage/dbisam_table_entry.cpp:164-202 | the COUNT path from its statement to the last chunk, in the columns of the reply to Prepare: as many row identifiers as the number in the first cell of the answer, none below zero; if the query completes it succeeds exactly when the answer's first row decodes and starts with a number |
| `AttachedScan.CountOfAnswer` | src/storage/dbisam_table_entry.cpp:182-197 | an answer whose first cell is a number counts that many rows, cut towards zero and none below it; one whose first cell is NULL, text, a truth value, bytes or a blob is no count |
| `AttachedScan.CountingIsExact` | src/storage/dbisam_table_entry.cpp:164-202 | for projections of row identifiers only, counting gives the vectors that streaming the table gives if and only if the server's answer is the number of rows it streams |
| `AttachedScan.CountAgainstScan` | src/storage/dbisam_table_entry.cpp:164-271 | both over one and the same server, from their statements on: if both complete and the answer is a number, the vectors are the same if and only if it is the number of rows the table's cursor streams |
| `TableScan.ScanTable` | src/storage/dbisam_table_entry.cpp:109-443 | a whole scan, composed of projection, rendering, counting or streaming and every Execute, over a server that reads the text of the one statement it sends and answers it out of its database: output i shows table column column_ids[i] of every row that the trees of all filters sent include, the first of them as many as a hard hint says, in order, and row identifiers are 0, 1, 2, ..., whatever blob key injection, driver column or count lies between; a scan of identifiers without filters shows as many as the table has rows; it fails exactly when a filter the engine relies on has no rendering, or one sent holds an empty connective |
| `TableScan.StatementAsksForKept` | src/storage/dbisam_table_entry.cpp:214-249 | what the server reads off the text a scan sends asks for exactly the columns the scan selects and exactly the rows it is to show: those all sent filters are TRUE on, cut as LIMIT pushdown says by `Optimizer.ScanRows` |
| `TableScan.SelectedArePicked` | src/storage/dbisam_table_entry.cpp:221-240 | rows that pass a test are those of the table at ascending positions, none left out |
| `TableScan.KeptByFilters` | src/storage/dbisam_filter_render.cpp:426-470 | which rows those are, for plain filters: by position, none twice or out of order, every row all filters are TRUE on, of what the engine would see of its cells, and of the others only rows that satisfy what the scan must enforce of every filter; a hard hint cuts that to the first rows and any other changes nothing |
| `Projection.PlanScan` | src/storage/dbisam_table_entry.cpp:114-212 | every real output column reads the SELECT position holding its own table column, identifiers none; a projected Blob, Memo or Graphic column puts table column 0 at position 0; the SELECT list is the real columns, behind column 0 only if there are none or a blob is projected and another column leads; counted exactly when nothing real is selected and no filter remains |
| `Projection.BuildSelect` | src/storage/dbisam_table_entry.cpp:151-163 | the SELECT list is what was injected and then the real columns in order, and outputs map into it |
| `Projection.FindBlobColumn` | src/storage/dbisam_table_entry.cpp:121-127 | finds out whether a blob column is projected |
| `Projection.KeyLeads` | src/storage/dbisam_table_entry.cpp:133-140 | finds out whether the first real column is table column 0 |
| `Projection.OutputShowsItsColumn` | src/storage/dbisam_table_entry.cpp:413-438 | what an output shows is its own table column's value in that column's type |
| `Projection.FilterNames` | src/storage/dbisam_table_entry.cpp:221-234 | filters are rendered with the names of the scan's columns |
| `Projection.ScanSql` | src/storage/dbisam_table_entry.cpp:214-249 | the statement: quoted SELECT list, the WHERE clause of the rendered filters over the scan's column names, TOP exactly for a hard hint; it fails exactly when a mandatory filter has no rendering |
| `Projection.SelectIsRead` | src/storage/dbisam_table_entry.cpp:214-249 | the statement's text, split into tokens and read back, gives exactly the selected names in order, the table's name, the conjunction of the trees of the filters sent or no condition, and the cap or none; it cannot be read exactly if one of those filters holds an empty connective |
| `Statements.StatementReads` | src/storage/dbisam_table_entry.cpp:214-249 | for all names, tables, well-shaped conditions and caps: reading the text of a SELECT statement gives the statement back, or nothing exactly if a connective of its condition is empty |
| `Statements.CountReads` | src/storage/dbisam_table_entry.cpp:174 | and the text of a COUNT statement names the table it counts |
| `Projection.SelectList` | src/storage/dbisam_table_entry.cpp:214-218 | the loop joins the quoted names of the selected columns |
| `Projection.RequestSize` | src/storage/dbisam_table_entry.cpp:260-266 | a hint shrinks the record block requests, never enlarges them and never to nothing |
| `Projection.PushdownExpression` | src/storage/dbisam_table_entry.cpp:445-464 | accepts exactly expressions over a real column that render; what is accepted renders for every column name |
| `LimitPushdown.PushdownPreserves` | src/storage/dbisam_optimizer.cpp:38-98 | over all plan trees with separate binds and no earlier hints, running with the hints the walk writes gives the rows it gives without, provided each hard cap is enough |
| `LimitPushdown.PushedLimitIsExact` | src/storage/dbisam_optimizer.cpp:59-85 | one pushed LIMIT changes no result, for any table, if and only if its cap is zero, nothing is wanted, or it covers limit and actual offset |
| `LimitPushdown.ComputedOffsetLosesRows` | src/storage/dbisam_optimizer.cpp:63-66 | a computed OFFSET, treated as 0, is harmless exactly when it is 0 or nothing is wanted |
| `LimitPushdown.WrappedSumLosesRows` | src/storage/dbisam_optimizer.cpp:69 | a sum that wraps is harmless exactly when it wraps to 0 or nothing is wanted |
| `LimitPushdown.PlainIsEnough` | src/storage/dbisam_optimizer.cpp:1-15 | constant or absent offsets that do not wrap always meet the condition |
| `LimitPushdown.NearestLimitOnly` | src/storage/dbisam_optimizer.cpp:32-56 | a scan's hint is that of its nearest LIMIT if only projections and filters lie between, hard unless a filter does; no other LIMIT reaches it |
| `LimitPushdown.OptimizeLimitPushdown` | src/storage/dbisam_optimizer.cpp:94-96 | the walk as it runs over bind objects changes no result of a plan with plain LIMITs |
| `Optimizer.Walk` | src/storage/dbisam_optimizer.cpp:58-92 | the in-place walk computes Walked on the bind data of its scans and touches nothing else |
| `Optimizer.StampLimit` | src/storage/dbisam_optimizer.cpp:59-88 | one LIMIT lowers the hint of the scan it reaches, never raises it |
| `Optimizer.FindAttachedScanBind` | src/storage/dbisam_optimizer.cpp:38-56 | the scan below pass-through operators, and whether a filter was met |
| `CatalogSafety.CacheOnlyGrows` | src/storage/dbisam_catalog.cpp:82-170 | in every run: names once loaded never change, so a reference may be read without the mutex; no entry is replaced or removed |
| `CatalogSafety.OneLoginAtATime` | src/storage/dbisam_catalog.cpp:82-127 | at most one thread is at the server for metadata |
| `CatalogSafety.NoDeadlock` | src/storage/dbisam_catalog.cpp:82-170 | a thread in a call can go on, or the holder of its mutex can, or the holder of that thread's mutex can, whatever the server answers |
| `CatalogSafety.AnswersStayValid` | src/storage/dbisam_catalog.cpp:92-145 | every answer given stays what the cache holds, and once a full entry is served for a name nothing less is served for it again |
| `CatalogSafety.CachedIsFound` | src/storage/dbisam_catalog.cpp:92-145 | in every run a full entry is cached for a name if and only if the server answered Columns for a name that differs at most in the case of letters |
| `CatalogSafety.CallersHearTheServer` | src/storage/dbisam_catalog.cpp:82-145 | a caller is told that a table is missing only if the server answered NoColumns for its key, is served a full entry only if it answered Columns, is given only names the server listed, and sees an exception only if an answer failed |
| `CatalogSafety.AnswersReachCallers` | src/storage/dbisam_catalog.cpp:82-127 | and every answer reaches the caller that waits for it as just that |
| `CatalogSafety.OneEntryForAllCases` | src/storage/dbisam_catalog.cpp:92-145 | names that differ in the case of letters only are served one and the same entry |
| `CatalogSafety.EntriesAreDistinct` | src/storage/dbisam_catalog.cpp:92-145 | and others never one object: two entries served are the same object if and only if their names differ in case at most and both or neither have been probed |
| `CatalogSafety.ErrandsAreRun` | src/storage/dbisam_catalog.cpp:82-170 | a thread keeps to what it was called for until it is idle again, and then its caller has been answered for just that: the names, the named table's full entry or none, its full entry if there is one and else one for scans, or an exception |
| `CatalogSafety.CallsBegin` | src/storage/dbisam_catalog.cpp:82-170 | a thread that is in no call may make any |
| `CatalogSafety.KeyIgnoresCase` | src/storage/dbisam_catalog.cpp:92-97 | two names have one key if and only if they differ in the case of letters A to Z only |
| `CatalogSafety.EagerLoadIsComplete` | src/storage/dbisam_catalog.cpp:147-170 | once eager loading is done, for every name the server ever listed it answered Columns, and then the entry is cached, or NoColumns, also after exceptions and retries |
| `CatalogSafety.NoEagerLoadUnasked` | src/storage/dbisam_catalog.cpp:147-170 | without the option no run ever loads eagerly |
| `CatalogSafety.EagerCallLoads` | src/storage/dbisam_catalog.cpp:147-170 | with it an eager load that ends has loaded or thrown |
| `CatalogSafety.LoadsOnce` | src/storage/dbisam_catalog.cpp:147-170 | and it is done once: when everything is loaded no thread is past the check any more, or ever again |
| `CatalogSafety.UnlockedReadIsSafe` | src/storage/dbisam_catalog.cpp:162-167 | while the eager loop reads names outside the mutex they are loaded and stay as they are |
| `CatalogSafety.CallsMakeProgress` | src/storage/dbisam_catalog.cpp:82-170 | every step of a call brings its thread closer to the call's end |
| `CatalogSafety.OthersDoNotSetBack` | src/storage/dbisam_catalog.cpp:82-170 | and no step of another thread sets it back |
| `CatalogSafety.StepKeepsInv` | src/storage/dbisam_catalog.cpp:82-170 | every step of every thread keeps mutex ownership, cached data, answers and what each thread relies on |
| `CatalogSafety.WritersHoldSchema` | src/storage/dbisam_catalog.cpp:82-170 | only the owner of schema_mutex_ writes |
| `CatalogSafety.LocalLocks` | src/storage/dbisam_catalog.cpp:82-170 | mutexes are taken only without them, released only with them, also by exceptions |
| `Wire.UnitRoundTrip` | src/protocol/wire.cpp:5-28 | a packed unit is read back wherever it stands, leaving what follows |
| `Wire.PackAllRoundTrip` | src/protocol/wire.cpp:5-28 | walking packed bytes gives back exactly the list that was packed |
| `Wire.Walker.NextUnit` | src/protocol/wire.cpp:5-28 | moves past the unit at its position, or reports the end or the error without moving |
| `Wire.Walker.Seek` | src/protocol/response.cpp:63 | moves back to a saved position |
| `Msg.MsgBuilder.constructor` | src/protocol/msg.cpp:25-32 | a new builder holds the header and no unit |
| `Msg.MsgBuilder.Pack` | src/protocol/msg.cpp:34-38 | one more unit at the end |
| `Msg.MsgBuilder.Finish` | src/protocol/msg.cpp:73-77 | the body with the inner length patched in place is the message of the packed units |
| `Msg.MessageRoundTrip` | src/protocol/msg.cpp:25-77 | a peer walking a finished body reads exactly the units packed |
| `Msg.HeaderRoundTrip` | src/protocol/msg.cpp:25-32 | and its request code and inner length |
| `Msg.BuildConnect` | src/protocol/msg.cpp:86-95 | the Connect body |
| `Msg.ConnectInnerLength` | src/protocol/msg.cpp:86-95 | its inner section has 33 bytes and the host name |
| `Msg.BuildOpenBlob` | src/protocol/msg.cpp:218-229 | the OpenBlob body |
| `Msg.BuildReadRecordBlock` | src/protocol/msg.cpp:248-260 | the two record block requests |
| `CursorInfos.Read` | src/protocol/cursor_info.cpp:65-79 | ten expectations in order, each advancing the walker, with the first error that occurs |
| `CursorInfos.ExpectExactly` | src/protocol/cursor_info.cpp:17-61 | a unit of the wanted length, or an error |
| `CursorInfos.ExpectBytes` | src/protocol/cursor_info.cpp:43-49 | a unit of any length, or an error |
| `CursorInfos.InfoRoundTrip` | src/protocol/cursor_info.cpp:65-79 | ten packed units are read back as the structure they encode |
| `Response.ReadBatchFrom` | src/protocol/response.cpp:27-69 | the reader with its lock and seek-back computes ReadBatch and leaves the walker at the first unit that is no row |
| `Response.ReadRowsFrom` | src/protocol/response.cpp:41-67 | the row loop: the first row fixes the size, the first other unit is left unread |
| `Response.ReadBlockFrom` | src/protocol/response.cpp:71-111 | the record block reader computes ReadBlock |
| `Response.SplitRowsOf` | src/protocol/response.cpp:86-98 | rows are cut out of the buffer one after the other, or none if the size is off |
| `Response.SplitBookmarksOf` | src/protocol/response.cpp:100-109 | one bookmark per accepted row |
| `Response.SlicesTile` | src/protocol/response.cpp:94-96 | slices laid end to end are the buffer |
| `Response.SliceAt` | src/protocol/response.cpp:95 | slice i starts i sizes into the buffer |
| `BatchRoundTrip.BatchesRoundTrip` | src/protocol/response.cpp:27-69 | any list of packed batches is read back unchanged, despite size locking and seek-back, for record sizes of at least 5 |
| `BatchRoundTrip.RowsAreMaximal` | src/protocol/response.cpp:41-67 | for any bytes: the rows read have one size within 2 of the schema's, and the unit behind them has another |
| `BatchRoundTrip.ShortRecordsAreAmbiguous` | src/protocol/response.cpp:51-54 | below 5, where a result code has the size of a row, no bytes at all are read as a row-less batch that another follows |
| `BatchRoundTrip.PaddedBatch` | src/protocol/response.cpp:43-66 | with one to three zero bytes behind it a batch is refused; with none or four to seven it is read |
| `BatchRoundTrip.BlockRoundTrip` | src/protocol/response.cpp:71-111 | a packed block gives back its rows and bookmarks, whatever follows |
| `BatchRoundTrip.RowlessBlocks` | src/protocol/response.cpp:81-88 | a block without a row count of four bytes, or that ends behind it, has no rows |
| `BatchRoundTrip.BuffersTile` | src/protocol/response.cpp:86-109 | for any bytes: accepted rows tile their buffer in order, and bookmarks are none or one per row, tiling theirs |
| `Framing.DeframeWrap` | src/protocol/framing.cpp:25-40 | a wrapped body is recovered, zero padding included, and what follows is left |
| `Framing.WrapLength` | src/protocol/framing.cpp:25-40 | the total is the least multiple of 8 that holds envelope and body |
| `Framing.LengthDecides` | src/protocol/framing.cpp:142-164 | what becomes of a stream that starts with an envelope, by the length in it: refused below 20 and above 20 plus 256 MiB, else exactly so many bytes are its body and the rest is left, or the connection closes early |
| `Framing.OthersAreRefused` | src/protocol/framing.cpp:142-147 | a stream that does not start with an envelope is refused |
| `Framing.Socket.WriteAll` | src/protocol/framing.cpp:108-122 | over every schedule of short, interrupted or failed sends: all bytes in order, or a prefix and the error |
| `Framing.Socket.ReadExact` | src/protocol/framing.cpp:124-140 | over every schedule of short receives: exactly the next bytes |
| `Framing.Socket.RecvMsg` | src/protocol/framing.cpp:142-164 | the framed body, with the envelope checks |
| `Framing.SendRecvCompressed` | src/protocol/framing.cpp:183-245 | sends the wrapped, possibly deflated body and rebuilds the reply, the guard on its length adding in 32 bits; a failed send leaves a prefix on the wire and reads nothing; any error that is not the socket's is the one the reply calls for |
| `Framing.GuardIsExact` | src/protocol/framing.cpp:225-233 | the guard refuses a section that goes beyond the body if and only if 7 and its length do not overflow 32 bits; with a length in the topmost seven it never refuses |
| `Framing.PeerRecoversBody` | src/protocol/framing.cpp:183-216 | the peer recovers request code and inner section, up to fewer than 8 zero bytes, of every body but a Connect with a short inner section |
| `Framing.Converse` | src/protocol/framing.cpp:108-216 | two parties: for any list of such bodies, any schedule of the client's sends and any of the peer's receives, unless a socket fails the peer gets every message once, in order, with its request code and inner section, and nothing is left |
| `Framing.FlagBitMeansDeflated` | src/protocol/framing.cpp:194-213 | the low flag bit is set exactly when the section is deflated, if and only if the body is not a short Connect |
| `Framing.FlagOfMessage` | src/protocol/framing.cpp:192-204 | the flag byte of every message is 09 on a Connect, 5A on a plain one and 5B on a deflated one |
| `Framing.ConnectIsDeflated` | src/protocol/msg.cpp:86-95 | every Connect body built is deflated, so its flag is right |
| `Framing.CompressedReplyIsRebuilt` | src/protocol/framing.cpp:219-244 | a compressed reply is rebuilt without its padding |
| `Framing.PlainBatchReply` | src/protocol/framing.cpp:219-223 | a batch of rows that ends a plain reply, framed, deframed and handed on with its padding, is refused by the batch reader if and only if the reply's length leaves 1, 2 or 3 by eight; else it is read back |
| `Schema.ParseSchema` | src/protocol/schema.cpp:72-89 | computes Parse: the columns from the first marker on and the offset behind the last block, or the error that applies |
| `Schema.FindFirstBlockStart` | src/protocol/schema.cpp:35-43 | the first marker, or an error exactly when there is none |
| `Schema.SchemaRoundTrip` | src/protocol/schema.cpp:72-89 | any 1 to 65535 columns laid out as blocks behind a marker-free prefix and before a tail that does not go on: parse_schema returns exactly them and the offset just past the last |
| `Schema.ParsedAreNumbered` | src/protocol/schema.cpp:76-84 | whatever the payload, the columns returned are numbered in order |
| `Schema.TypesAreDenoted` | src/protocol/schema.cpp:7-28 | every triple of codes denotes exactly one of the eighteen types, the one it is read as |
| `Row.DecodeRecordOf` | src/protocol/row.cpp:65-99 | columns in order, the first error thrown |
| `Row.DecodeColumnOf` | src/protocol/row.cpp:73-96 | one column: bounds, null byte, value |
| `Row.DecodeString` | src/protocol/row.cpp:107-118 | the bytes before the first zero |
| `Row.RowRoundTrip` | src/protocol/row.cpp:65-202 | encoding and decoding is the identity on every cell a column can hold, DateTime cells included if the writer's double is within 0.49 microseconds (exact at midnight), for contiguous schemas |
| `Row.ColumnsAreIndependent` | src/protocol/row.cpp:73-97 | changing one column's bytes changes no other column's cell |
| `Row.DateTimeFits` | src/protocol/row.cpp:129-144 | behind the guard of 1e8 days the result fits 64 bits and the later 2^40 guard never fires, however the two operations round |
| `Row.DateTimeRoundTrip` | src/protocol/row.cpp:129-144 | every microsecond of every day in range is recovered from its serial number, even if that was rounded by less than 0.49 microseconds and the subtraction and the multiplication round to 53 bits; the time counts away from zero before 1899-12-30 as Delphi does |
| `Calendar.EpochsAreDays` | src/protocol/row.cpp:42-59 | the two epoch constants are what the Gregorian calendar says: by leap years and lengths of months 719162 days lie between 0001-01-01 and 1970-01-01, and 25569 between 1899-12-30 and 1970-01-01 |
| `Calendar.DateIsShown` | src/protocol/row.cpp:119-128 | a DATE column that stores a day's number, 0 for 0001-01-01, shows the days from 1970-01-01 to that day of the calendar |
| `Calendar.MidnightIsShown` | src/protocol/row.cpp:129-144 | a date-time that stores midnight of a day shows the microseconds from 1970-01-01 to it |
| `Row.RecordSizeIsEnd` | src/protocol/cursor.cpp:69-75 | compute_record_size is where the last contiguous column ends |
| `Text.DecodeDbisamText` | src/protocol/text.cpp:83-93 | the two branches compute Decode |
| `Text.IsValidUtf8` | src/protocol/text.cpp:7-30 | the index loop decides LooksUtf8 |
| `Text.GuardedIsChunks` | src/protocol/text.cpp:7-30 | what passes the guard is a sequence of ASCII bytes and of lead bytes C2 to F4 with the one to three tails they announce |
| `Text.ChunksAreGuarded` | src/protocol/text.cpp:7-30 | and every such sequence passes |
| `Text.DecodeIsIdempotent` | src/protocol/text.cpp:83-93 | every result passes the guard, so decoding twice is decoding once |
| `Text.WellFormedOutput` | src/protocol/text.cpp:83-93 | the result is well-formed UTF-8 (section 4 of RFC 3629) if and only if the input was or fails the guard |
| `Text.GuardIsWeaker` | src/protocol/text.cpp:12-22 | overlong forms and surrogates that pass the guard |
| `Text.PerByteCodepoints` | src/protocol/text.cpp:34-79 | the per-byte branch gives one code point per byte, well formed |
| `Text.CodepointsByRow` | src/protocol/text.cpp:34-65 | those code points, row by row of the code page: Latin-1 but for 27 characters from 80 to 9F |
| `Text.DecodeIsInjective` | src/protocol/text.cpp:83-93 | distinct inputs that fail the guard give distinct results |
| `Text.LeftCommutes` | src/storage/dbisam_filter_render.cpp:233-248 | on text that is not UTF-8, taking n bytes and decoding is decoding and taking n characters if and only if the prefix is not UTF-8 either or is ASCII |
| `Crypto.EncryptLogin` | src/protocol/crypto.cpp:10-47 | refuses exactly strings over 255 bytes; otherwise the CBC ciphertext of the padded plaintext |
| `Crypto.CbcInPlace` | src/protocol/crypto.cpp:33-45 | the in-place loop over the buffer computes CBC |
| `Crypto.LoginIsInvertible` | src/protocol/crypto.cpp:10-47 | decrypting (section 6.2 of NIST SP 800-38A, zero IV) and reading the two length prefixes recovers both strings; the length is the least multiple of 8 |
| `Crypto.LoginIsInjective` | src/protocol/crypto.cpp:13-17 | distinct credentials give distinct ciphertexts |

## Left out

- FilterRender.RenderDbisamExpression: literals are booleans, integers and text; float, decimal and calendar text is not modelled, so neither is the loss of microseconds in timestamps. LEFT's count is any non-negative integer.
- NullRows.RenderedTextKeepsMeaning: what DBISAM makes of NULL compared with NULL, which the audit table does not cover, is a parameter (`Dialect.bothNull`); the result holds for every choice. A bare boolean value counts as TRUE only. A conjunction used as an operand has truth values for children; only a filter's own conjunctions may hold bare values.
- TextPushdown.LiteralIsExact: the server is taken to compare stored bytes with the literal's bytes one by one, and DuckDB to compare the bytes of its UTF-8 text; a locale of a DBISAM table, in which case may not matter, is not modelled.
- FilterSetMeaning.FilterSetSandwich: dynamic and bloom filters are opaque predicates of the column value.
- Framing.SendRecvCompressed: where the 32-bit guard lets a section through that goes beyond the body, the outcome is `BeyondBody`; what inflate then makes of the bytes behind the body is undefined.
- Row.RowRoundTrip: binary64 values stay raw bytes and currency stays the scaled integer until a count is taken from it; rounding is known only by its error bound.
- AttachedScan.CountTable: a count that is an infinite or undefined double, whose cast C++ leaves undefined, counts as no number here.
- Client.DecodeBatchWithBlobs: a last column that lies before the first one leaves no column data; the C++ computes a wrapped span there.
- AttachedScan.StreamTable: termination and the rows shown are for servers that end their stream; a server that never does keeps the real scan waiting. The conversion of cells to DuckDB vectors is left out but for the transcoding of text, which `FilterAst.Displayed` applies where filters are concerned.
- TableScan.ScanTable: the server is taken to refuse a text that is no statement and to answer one over its own tables and columns with the rows that pass the condition read off it, the first of them if it reads a TOP; column and table names are compared as they are. Conditions see integers, truth values and text, that of memos included, and no other cells.
- Optimizer.Walk: a LIMIT, PROJECTION or FILTER has exactly one child, as DuckDB builds them; projections and filters are pure functions of a row, and a table yields its rows in the same order with and without TOP.
- CatalogSafety.NoDeadlock: a mutex is granted to any waiting thread; fairness is not modelled.
- Sockets, name resolution, timeouts, connecting and logging in: a request/reply oracle and byte schedules stand for them.
- miniz, Blowfish, MD5 and the captured constant session bodies.
- `dbisam_scan.cpp`, whose execute loop repeats the attached scan's, and the transaction manager, transaction and schema entry, which forward to the catalog.
- ATTACH options and path parsing, statistics, read-only errors, environment switches and the remaining message builders, which add no property of their own.
