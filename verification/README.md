# LM Resizer: verified models of its exact and concurrent parts

LM Resizer shortens the output of developer tools and promises that what it shortens can be recovered: reversible
views expand back byte for byte, each captured stream stays exact, and no failure or answer is lost on the way. This
project models the parts of the program that carry those promises and proves them for every input, every run and
every interleaving.

The modules follow the program's own structure.

| module | what it models |
|---|---|
| `Text`, `Bytes` | rows, `str::lines`, decimal numbers and little-endian integers, as the standard library defines them |
| `JsonString` | JSON strings (section 7 of RFC 8259), written and read as `serde_json` does |
| `PatchView`, `PatchSizes` | Patch v2: factored file headers, escaped rows, `Repeat` records, and what each of them saves |
| `LinesView`, `LinesEncoders` | LMR-LINES/2 and /3: the bounded decoder and both encoders |
| `LinesChoices` | which row, block or prefix those encoders share, stated on the rows alone |
| `TextDictionary` | LMR-TEXT/1: the dictionary header, `~` escapes, the payload |
| `RunFolds`, `PathFolds` | run folds (`logs`, `log_runs`, `expand_runs`) and the path and match folds |
| `Expansion` | `expand`, which chooses a decoder by the look of the view |
| `Refusals` | which malformed views each decoder refuses |
| `Misread` | what each decoder makes of a text that is no view, and of a row after one |
| `FoldedLogs`, `SelfReading` | `logs` and `log_runs` through `expand`, with headings and recall hints |
| `PrintedRows` | the rows that `exec` prints before and after a view |
| `RepeatRows` | the word pattern of LMR-TEXT, and which texts its streams carry |
| `ConversationViews` | references to earlier messages of a window |
| `CsvTable` | the JSON table and its CSV branch, the latter against a reader of section 2 of RFC 4180 |
| `BytePairs` | the two byte-pair merge algorithms of the token counter |
| `VocabularyIndex` | the packed vocabulary, its open-addressed index, and the lookup that reads both files |
| `TokenMetrics` | the shared cache of token counts with its prefix shortcut |
| `ProviderUsage` | the incremental scanner of server-sent events and the stream adapter around it |
| `SignalRelay` | the handoff of a signal to a child whose process id may not be published yet |
| `CommandCapture` | the capture of one pipe, and of two by two workers and one consumer, with the durable archive |
| `McpProxy` | the pending-request table, the rewriting of answers, the store that forgets, the two threads and the drain |
| `ProxyRuns` | what the client of the proxy is sent over whole runs: lines shown, and answers to each call |
| `Binlog`, `BinlogEdges` | the MSBuild binary log reader, a writer for every record it handles, and logs that are cut, old or damaged |
| `CivilDate` | the calendar day count |

A text is the sequence of its UTF-8 bytes, one `char` per byte, so that lengths and limits count what `str::len`
counts. Concurrency is a step relation: a state, the steps each thread may take, an invariant that every step keeps,
and theorems about whole runs. Code that works by updating variables is a method with loops, proved equal to a
function of its inputs; the round trips and invariants are then lemmas about those functions.

Some promises do not hold on all inputs. The model keeps the code as it is; each has a lemma with the exact condition
under which the promise does hold.

* The records of a Patch stream are never longer than the rows they stand for, with one exception: JSON may take more
  than four times as much for a file name of control characters (`PatchSizes.HeaderPays`, exactly;
  `PatchSizes.ControlNamesGrow` is a family of such names).
* `expand` sends every view that contains a line starting with `[repeat ` to the run decoder, also an LMR-LINES or
  LMR-TEXT view. Such a view never gives its text back (`Expansion.LinesThroughExpand`,
  `Expansion.TextThroughExpand`). For LMR-TEXT this is a condition on the text: no row of it starts with `[repeat `
  (`RepeatRows.TextComesBack`). `Expansion.DivertedText` shows it on texts that `factor_text` encodes.
* `expand` knows a folded log only by its first row. A log whose first row is a Patch, path or match heading is folded
  and never comes back; one with an LMR heading comes back if something in it is folded, and is otherwise decoded as
  the view it looks like (`FoldedLogs.LogsThroughExpand`, with `FoldedLogs.HeadedLogIsLost` as a family of inputs).
  That last decoding can even succeed: `SelfReading.LogReadsItself` is a log that is its own expansion. The views of
  `log_runs` always come back (`FoldedLogs.LogRunsThroughExpand`).
* `logs` reads rows with `str::lines`, so a text with CRLF rows loses its carriage returns, and the function has no
  check of its own. `log_runs` has one and refuses exactly those texts (`RunFolds.LogRuns`).
* `exec` prints rows around a view. A recall hint after it is skipped by the Patch decoder
  (`PatchView.HintIsTrailer`); a folded log gives the text back with the hint as its last row, and never alone, whatever
  its heading (`FoldedLogs.HintStays`, `FoldedLogs.LevelHintStays`, `PrintedRows.NoteNeverAlone`); path and match folds
  and LMR views are refused with it (`FoldedLogs.HintBreaksFold`, `FoldedLogs.HintBreaksLmr`). The `[capture: ...]` row
  makes a Patch view unreadable too (`PrintedRows.CaptureBreaksPatch`). A `[FAIL]` row in front hides the heading: a
  Patch view, a path or match fold never comes back (`PrintedRows.FailureHidesPatch`, `PrintedRows.FailureHidesFold`),
  an LMR view only as a text that itself starts with both rows, and a folded log comes back after the status
  (`PrintedRows.FailureStays`).
* A text that no encoder shortens is printed as it is, and `expand` may misread it: it comes back if and only if it
  has no heading and no repetition row that the run decoder would obey (`Expansion.TextIsKept`).
* All decoders stop at 512 MiB (LMR-LINES also at a million rows), and the encoders do not: the round trips hold
  exactly up to those limits.
* `finish` does not look into a file that already has the name of the digest: it keeps it, removes its own exact copy
  and returns the hint. The named archive holds the log if and only if there was no such file or it held the log
  (`CommandCapture.NamedArchiveIsExact`); `CommandCapture.StaleArchiveHappens` is a run that ends with another archive.
  `write_private_archive`, which reports use afterwards, repairs such a file, unless there is nothing to write
  (`CommandCapture.WritePrivateArchive`).
* The first line of the server that is no UTF-8 ends the reading. The client is shown all non-blank lines if and only if
  every line is UTF-8 (`ProxyRuns.AllIsShownIfValid`); `ProxyRuns.InvalidLineHidesReply` is a run that loses an answer.
* A call can be answered twice: a second reply to the same id is no longer in the table and passes. A call that the
  client does not repeat gets exactly the replies the server writes to it, or one error reply if there is none
  (`ProxyRuns.AnswersOfCall`, `ProxyRuns.RepeatedReplyPasses`).
* The store of the proxy forgets a text half an hour after it was last written. The original of a rewritten answer
  could be read when the answer was sent, and can be read later exactly until then
  (`McpProxy.OriginalsStayUntilExpiry`); `McpProxy.ExpiryHappens` is a run that loses one.
* Signals that arrive before the last one was taken are coalesced: a signal reaches the child if and only if a swap
  falls between it and the next one (`SignalRelay.SignalsAreCoalesced`). The last one always does.
* The event scanner drops a partial line of more than 2^20 bytes, so for longer lines the usage depends on how the
  stream is cut into chunks (`ProviderUsage.ChunkingIsInvisible`).

## Model

| member | source | states |
|---|---|---|
| `JsonString.FirstRoundTrip` | src/patch_view.rs:152-157 | a written JSON string is self-delimiting: the first value of the stream reader is the original, and reading stops at the closing quote whatever follows |
| `JsonString.DecodeRoundTrip` | src/lossless_filters.rs:527-530 | decoding the JSON of any text gives the text back |
| `JsonString.EncodeNoLf` | src/lossless_filters.rs:527-530 | the JSON of any text, line feeds included, fits on one row and starts with a quote |
| `JsonString.EscapedIfNeeded` | src/patch_view.rs:152-157 | a character is copied exactly where the reader takes it for itself, and a two-character escape is used wherever the reader has one |
| `JsonString.EscapedScalarReads` | src/patch_view.rs:152-157 | every Unicode scalar value is read from its `\u` escape, above 0xFFFF from the surrogate pair, as its UTF-8 bytes |
| `JsonString.Utf8RoundTrip` | src/patch_view.rs:152-157 | those bytes carry the value, and the first tells how many they are |
| `PatchView.Render` | src/patch_view.rs:59-98 | the loop over rows produces the specified record stream, kept only where it is shorter and saves tokens; texts that are empty or already start with a magic line come back as they are |
| `PatchView.EncodeRows` | src/patch_view.rs:63-85 | the cursor loop emits exactly the records of the rows, header by header and run by run |
| `PatchView.PushRun` | src/patch_view.rs:72-84 | a run becomes its row and a `Repeat`, or its copies, as the records of the run say; `PatchSizes.RunIsShorter` says which |
| `PatchSizes.RunIsShorter` | src/patch_view.rs:72-84 | a run takes the smaller of the two sizes, of its copies and of the row with a `Repeat`, and the copies where both are equal |
| `PatchSizes.ShortestRuns` | src/patch_view.rs:64-85 | no way of cutting rows without headers into runs, each written out or folded, gives a shorter stream |
| `PatchSizes.HeaderIsFound` | src/patch_view.rs:20-57 | the rows start with a recognizable header if and only if they are the four rows of a name and a version without CR |
| `PatchSizes.HeaderPays` | src/patch_view.rs:38-57 | the record of a header is not longer than its four rows if and only if it is compact or JSON takes at most 29 bytes, 30 with a tab, more than four times the name |
| `PatchSizes.RecordsAreShort` | src/patch_view.rs:59-98 | a stream is never longer than magic line, rows written out and end record, unless a header names a file with control characters |
| `PatchSizes.ControlNamesGrow` | src/patch_view.rs:38-57 | a family of names of control characters whose header record is longer than its rows |
| `PatchSizes.RenderLongRun` | src/patch_view.rs:59-98 | a text of forty equal rows or more, where that saves tokens, is rendered as the row and one `Repeat` |
| `PatchSizes.EscapedIfNeeded` | src/patch_view.rs:8-18 | a row is escaped exactly where the decoder would not read it as itself |
| `PatchView.HeaderIsExact` | src/patch_view.rs:20-57 | a recognized header determines exactly the four rows it was read from |
| `PatchView.CompactHeaderRead` | src/patch_view.rs:138-147 | the decoder rebuilds the four rows of every `F`/`FT` record the encoder can write |
| `PatchView.FullHeaderRead` | src/patch_view.rs:148-159 | the decoder rebuilds the four rows of every `File`/`FileT` record the encoder can write |
| `PatchView.LiteralChunk` | src/patch_view.rs:8-18 | an escaped row is never taken for a record or a terminator and reads back as the row |
| `PatchView.RepetitionStep` | src/patch_view.rs:160-170 | a `Repeat` after a row appends its copies, and fails exactly when they would pass 512 MiB |
| `PatchView.Expand` | src/patch_view.rs:100-187 | the decoding loop, with its limits, errors, terminator and trailer rules, is the record-by-record replay |
| `PatchView.RecordsRestore` | src/patch_view.rs:64-85 | from any decoder state within the limit, replaying the records of any rows appends exactly those rows, or fails exactly when they would pass the limit |
| `PatchView.RoundTrip` | src/patch_view.rs:100-187 | decoding the stream of any text with any rows after it gives the text back exactly when the text with its last row terminated is at most 512 MiB and the rows are recovery hints or empty, and fails otherwise |
| `PatchView.HintIsTrailer` | src/patch_view.rs:110-128 | the hints printed after a view, with and without the recall command, are accepted after the terminator |
| `Refusals.PatchAccepted` | src/patch_view.rs:100-187 | whatever the Patch decoder accepts has an end record with only trailer rows after it and no malformed record before it, and decodes to at most 512 MiB |
| `Refusals.BadPatchIsRefused` | src/patch_view.rs:130-175 | an unknown terminator, a count that is no number or a compact header without a tab, anywhere before the end record, refuses the view |
| `Refusals.OrphanRepetitionIsRefused` | src/patch_view.rs:160-163 | a view that starts with a `Repeat` is refused |
| `PatchView.Inverse` | src/patch_view.rs:192-203 | a view chosen over the original is no longer than it and expands to it |
| `RunFolds.ExpandRuns` | src/reversible_views.rs:91-116 | the loop over pieces is the specified decoder, with its overflow and size checks |
| `RunFolds.FoldRows` | src/container_views.rs:43-58 | the nested loops fold each maximal run into its row and one repetition record |
| `RunFolds.RecordsReplay` | src/reversible_views.rs:91-116 | after any output, decoding folded rows appends exactly those rows, and fails exactly when some repetition ends beyond 512 MiB |
| `RunFolds.FoldRoundTrip` | src/reversible_views.rs:91-116 | folded rows expand to the rows they fold, exactly under that condition |
| `Refusals.BadRepetitionIsRefused` | src/reversible_views.rs:91-116 | the run decoder refuses a repetition that no row comes before, and a count that is no `usize`, wherever they are |
| `RunFolds.FoldIsMaximal` | src/container_views.rs:46-57 | the folded form shows the head of every run once, and no two neighbours among them are equal |
| `RunFolds.LinesAreExact` | src/container_views.rs:43-43 | splitting with `str::lines` loses nothing exactly when the text has no CRLF |
| `RunFolds.Logs` | src/container_views.rs:37-59 | the result is the folded form, or the text itself when it contains `[repeat ` or does not end with LF |
| `RunFolds.LogsRoundTrip` | src/container_views.rs:37-59 | the run decoder gives the text of a folded log back if and only if it has no CRLF and no repetition ends beyond the limit; a text within 512 MiB meets the second condition |
| `RunFolds.LogRuns` | src/structured_views.rs:110-146 | the run-time inverse check fails exactly on CRLF and on repetitions beyond the limit, so a view is refused only for those and for the shape tests |
| `RunFolds.LevelLinesAreLogs` | src/structured_views.rs:110-131 | rows without CR make a log, after the stderr heading or without one, if and only if they are twenty or more and each starts with one of the six levels |
| `PathFolds.Fold` | src/reversible_views.rs:4-59 | a view is produced if and only if the explicit shape tests pass: the final `expand(out) == raw` test never fails; the view expands to the original |
| `PathFolds.CleanFolds` | src/reversible_views.rs:4-46 | rows without CR are folded if and only if they are five or more, all of the shape |
| `PathFolds.Expand` | src/reversible_views.rs:61-89 | the loop over lines is the specified decoder |
| `PathFolds.LineUnfolds` | src/reversible_views.rs:48-56 | one line's records unfold to the line, and the decoder then holds the prefix the encoder will compare with |
| `PathFolds.RecordsUnfold` | src/reversible_views.rs:69-88 | the records of any shaped lines unfold to those lines, whatever came before |
| `PathFolds.InverseHolds` | src/reversible_views.rs:58-58 | the inverse check succeeds on every text that reaches it |
| `PathFolds.MatchColon` | src/reversible_views.rs:14-24 | the colon found is the first one after a path with a separator and no tab that a non-zero line number and a colon follow |
| `PathFolds.PathSplits` | src/reversible_views.rs:27-46 | a path is cut into directory and name exactly after its last separator |
| `PathFolds.PathRefused` | src/reversible_views.rs:27-33 | the lines that make the fold of paths refuse are the empty ones and those with a final colon, a tab, or a space or `@` in front |
| `PathFolds.MatchSplits` | src/reversible_views.rs:14-24 | a match is cut into file and rest exactly at the shortest file that makes it a match: path, line number without leading zero, text |
| `PathFolds.GroupIsFolded` | src/reversible_views.rs:48-56 | neighbouring lines with one prefix are written as the prefix, unless it is in force, and what each line has after it |
| `Refusals.FoldAccepted` | src/reversible_views.rs:61-89 | a path or match view is decoded if and only if each row is a prefix, a row kept whole, or a rest with a prefix somewhere before it |
| `LinesView.ExpandRecords` | src/lossless_filters.rs:407-506 | the decoding loop is the record-by-record replay up to the first end record |
| `LinesView.DecoderIsBounded` | src/lossless_filters.rs:456-502 | whatever records it is given, the decoder never holds more than a million rows or 512 MiB, and its byte count is that of its rows |
| `Refusals.RecordAccepted` | src/lossless_filters.rs:417-502 | a reference, block, repetition or prefix number is decoded if and only if it names what the decoder holds and the result is within a million rows and 512 MiB |
| `LinesEncoders.CommonPrefix` | src/lossless_filters.rs:509-515 | the result is the longest common prefix that ends between characters of the first text |
| `LinesEncoders.WriteLiteralRow` | src/lossless_filters.rs:518-524 | writing a row, escaped where it looks like a record, takes the decoder from the rows before it to the rows with it, provided such a record may be chosen there |
| `LinesEncoders.PrefixGroup` | src/lossless_filters.rs:133-150 | the group is all following rows with the prefix that the first two have in common, if leaving that out pays for its record, and otherwise the row alone |
| `LinesEncoders.EncodeLines` | src/lossless_filters.rs:104-161 | at every point of the loop the decoder, replaying the records so far, holds exactly the rows, prefix and prefix numbers of the encoder (or has failed on a text beyond its limits), and every record is one that may be chosen there |
| `LinesEncoders.FactorLines` | src/lossless_filters.rs:100-168 | the LMR-LINES/2 stream decodes to the text exactly when the text is within the decoder's limits, and is chosen only where shorter; where the decoder stands, long known rows are references to their first copy, repetitions cover the whole run, and prefixes belong to groups that they pay for |
| `LinesEncoders.ReferenceLeads` | src/lossless_filters.rs:470-476 | a reference to an earlier equal row decodes to the row |
| `LinesEncoders.BlockLeads` | src/lossless_filters.rs:451-468 | a block reference to rows already decoded decodes to the rows it stands for |
| `LinesEncoders.DefineLeads` | src/lossless_filters.rs:433-436 | a literal prefix record gives encoder and decoder the same prefix under the same number |
| `LinesEncoders.RecallLeads` | src/lossless_filters.rs:426-432 | recalling a numbered prefix restores it and numbers nothing |
| `LinesEncoders.ExtendLeads` | src/lossless_filters.rs:417-425 | extending a numbered prefix gives both sides the same new prefix under the same number |
| `LinesEncoders.BlockLength` | src/lossless_filters.rs:189-197 | the block is the rows that repeat those from the first copy on, ending before the row itself, and cannot be extended within that bound |
| `LinesEncoders.BlockAt` | src/lossless_filters.rs:198-214 | a block is referenced if and only if it has two rows or 24 bytes and its record is shorter than the rows |
| `LinesEncoders.BestPrefix` | src/lossless_filters.rs:217-232 | the rows of the group share the chosen prefix; no prefix that the row shares with any of the 63 following ones saves over 12 bytes more, and none is longer over the same rows |
| `LinesEncoders.Ancestor` | src/lossless_filters.rs:239-242 | the parent is the longest numbered proper prefix that ends between characters |
| `LinesEncoders.NewPrefix` | src/lossless_filters.rs:228-247 | a new prefix is written by its number if it has one, as an extension of its longest numbered ancestor of 8 bytes or more, and otherwise in full; the decoder then has the same prefixes under the same numbers |
| `LinesEncoders.WriteNext` | src/lossless_filters.rs:187-256 | one turn of the loop covers at least one row, keeps both numberings alike, knows exactly the rows before it by their first copies, and writes a record that may be chosen there: a block wherever one pays |
| `LinesEncoders.EncodeBlocks` | src/lossless_filters.rs:180-257 | the whole loop, under the same invariants as `EncodeLines` |
| `LinesEncoders.FactorBlocks` | src/lossless_filters.rs:175-266 | the LMR-LINES/3 stream decodes to the text exactly when the text is within the decoder's limits, and is chosen only where shorter; where the decoder stands, a block that pays is a reference, and every other row is written under a best prefix |
| `LinesChoices.LongRowsAreWrittenOnce` | src/lossless_filters.rs:187-214 | where the decoder meets a row of 24 bytes or more again, an LMR-LINES/3 stream has a block reference |
| `LinesEncoders.Finishes` | src/lossless_filters.rs:442-450 | with its end record and any accepted trailer, a stream that leads to the rows of a text decodes to the text, final newline included |
| `TextDictionary.HeaderRoundTrip` | src/lossless_filters.rs:336-337 | the JSON object of any entries with distinct letters is read back as exactly those entries |
| `TextDictionary.HeaderKnows` | src/lossless_filters.rs:298-312 | for up to 52 words the header read back knows every alias, has at most 52 keys and only letters |
| `TextDictionary.FactorText` | src/lossless_filters.rs:272-331 | the loop over word matches writes the specified stream for any cut into words and any ranking of them |
| `TextDictionary.AliasesAreUsed` | src/lossless_filters.rs:298-325 | every occurrence of one of the 52 best words takes two bytes of the payload, every other byte one, a tilde two |
| `TextDictionary.ExpandText` | src/lossless_filters.rs:333-379 | the loop over characters is the specified decoder, with its key, reference and size checks |
| `TextDictionary.PayloadDecodes` | src/lossless_filters.rs:356-374 | after any output, the payload of any cut decodes to the text it was cut from, tildes included, or fails exactly when that would pass the limit |
| `Refusals.UnknownAliasIsRefused` | src/lossless_filters.rs:356-374 | after any escaped text, a tilde with nothing, or neither a known letter nor a tilde, after it refuses the view |
| `TextDictionary.RoundTrip` | src/lossless_filters.rs:333-379 | the stream of any text decodes to it, whatever words were chosen, exactly when the text without its final LF is within 512 MiB |
| `Expansion.Expand` | src/lossless_filters.rs:383-406 | the order of the format tests decides which decoder a view reaches |
| `Expansion.LinesThroughExpand` | src/lossless_filters.rs:394-400 | an LMR-LINES stream comes back through `expand` if and only if the text is within the limits and the stream has no line starting with `[repeat ` |
| `Expansion.TextThroughExpand` | src/lossless_filters.rs:394-402 | the same for LMR-TEXT |
| `RepeatRows.TextComesBack` | src/lossless_filters.rs:272-331 | for a text cut at words of the pattern the condition is one on the text: it is within 512 MiB without its final LF and no row of it starts with `[repeat ` |
| `RepeatRows.PayloadMarked` | src/lossless_filters.rs:317-327 | a payload has a row that starts like a repetition if and only if its text has one: no word of the pattern overlaps such a mark, and no alias makes one |
| `Expansion.DivertedLosesText` | src/lossless_filters.rs:395-400 | a view with such a line never gives its text back through `expand` |
| `Expansion.DivertedRow` | src/lossless_filters.rs:395-400 | every row below the size limit that starts with `[repeat ` gives a stream that its own decoder reads and `expand` does not |
| `Expansion.PatchThroughExpand` | src/lossless_filters.rs:384-386 | every Patch stream, with any rows after it, reaches the Patch decoder, and comes back exactly under the conditions of `PatchView.RoundTrip` |
| `Expansion.FoldThroughExpand` | src/lossless_filters.rs:395-400 | every path or match fold comes back through `expand` |
| `Expansion.TextIsKept` | src/lossless_filters.rs:383-406 | `expand` gives a text back unchanged if and only if it has no Patch, path or match heading and no repetition row (and is no conversation); an LMR heading without a marker leads to that decoder |
| `Expansion.LinesInverse` | src/lossless_filters.rs:383-506 | encoding either LMR-LINES version and expanding the result gives the text back exactly under the stated conditions, whether a view was chosen or the text kept |
| `Expansion.PatchInverse` | src/patch_view.rs:192-203 | the same for Patch: a chosen view always comes back up to 512 MiB, a kept text under the condition of `TextIsKept` |
| `Expansion.DivertedText` | src/lossless_filters.rs:272-331 | every text that `factor_text` encodes and that has a line starting with `[repeat ` between its words is lost through `expand`, though its own decoder reads the view |
| `Misread.RunsKeepIff` | src/reversible_views.rs:91-116 | the run decoder leaves a text unchanged if and only if no row of it is a repetition |
| `Misread.PatchIsNeverThatText` | src/patch_view.rs:100-187 | a Patch view never decodes to a text with its terminator and every escaped terminator that it has, such as itself |
| `Misread.ReplaySourced` | src/patch_view.rs:130-182 | whatever records it is given, the Patch decoder writes a row that looks like a terminator only from a record with one more backslash |
| `Misread.PathsLoseRows` | src/reversible_views.rs:61-89 | a view with a path or match heading never decodes to a text of as many rows |
| `Misread.RunsKeepRow` | src/reversible_views.rs:91-116 | a row after a view that is no repetition stays in the decoded text |
| `FoldedLogs.LogsThroughExpand` | src/lossless_filters.rs:383-406 | a folded log comes back through `expand` if and only if it reaches the run decoder (no Patch, path or match heading, no conversation; an LMR heading only with something folded), has no CRLF and no repetition ends beyond the limit |
| `FoldedLogs.HeadedLogIsLost` | src/container_views.rs:37-59 | every log under a Patch, path or match heading is folded, is read back by the run decoder and is lost through `expand` |
| `FoldedLogs.UnendedLmrIsRefused` | src/lossless_filters.rs:333-506 | a text under an LMR heading that has no row `!0` or `!1` is refused |
| `SelfReading.LogReadsItself` | src/lossless_filters.rs:333-379 | a concrete log with an LMR-TEXT heading and nothing folded is its own view and its own expansion |
| `SelfReading.PayloadExpands` | src/lossless_filters.rs:354-374 | a payload that spells out three texts around two references decodes to them around two copies of the word |
| `FoldedLogs.ViewMarked` | src/container_views.rs:43-58 | the view of a log holds a repetition marker if and only if two neighbouring rows are equal |
| `FoldedLogs.HintStays` | src/main.rs:5724-5749 | with a recall hint the run decoder gives the folded rows and then the hint |
| `PrintedRows.NoteNeverAlone` | src/main.rs:5724-5749 | with any row that starts with a bracket after its view, a folded log never comes back alone, whatever its heading |
| `PrintedRows.CaptureBreaksPatch` | src/main.rs:3377-3386 | a Patch view with the `[capture: ...]` row after it is refused |
| `PrintedRows.FailureHidesPatch` | src/main.rs:3545-3555 | with a failure status before it, a Patch view never gives the text back that its own decoder reads |
| `PrintedRows.RunsKeepRows` | src/reversible_views.rs:91-116 | every row of a view that is no repetition is a row of what the run decoder makes of it |
| `PrintedRows.FailureHidesFold` | src/main.rs:3545-3555 | with a failure status before it, a path or match fold is printed as it is, which is never the text |
| `PrintedRows.FailureHidesLmr` | src/main.rs:3545-3555 | with a failure status before it, an LMR view can only give back a text that starts with the status and its heading |
| `PrintedRows.FailureStays` | src/main.rs:3545-3555 | with a failure status before it, a folded log gives the status and then the text, whatever its heading, and never the text alone |
| `FoldedLogs.HintBreaksFold` | src/main.rs:5724-5749 | a path or match fold with a recall hint is refused |
| `FoldedLogs.HintBreaksLmr` | src/lossless_filters.rs:442-450 | whatever the LMR view, it is refused with any other row after it than the `[raw: ...]` form of the hint |
| `FoldedLogs.LogRunsThroughExpand` | src/structured_views.rs:110-146 | every view that `log_runs` keeps comes back through `expand` |
| `FoldedLogs.LevelHintStays` | src/structured_views.rs:110-146 | and with a recall hint, so does the text with that hint |
| `ConversationViews.Fold` | src/conversation_views.rs:6-50 | a folded window is produced if and only if nothing in it looks like a reference, some eligible text repeats and the folded window saves tokens; the inverse check never fails |
| `ConversationViews.Expand` | src/conversation_views.rs:52-76 | the loop that rewrites messages in place is the specified left-to-right restoration, with its errors |
| `ConversationViews.InverseHolds` | src/conversation_views.rs:40-44 | restoring any fold of an unmarked window gives the window back |
| `ConversationViews.FoldedIffRepeated` | src/conversation_views.rs:18-38 | a message becomes a reference if and only if it is the result of a tool, not under cache control, of three lines and forty characters or more, whose text an earlier such message has; it refers to the first one |
| `ConversationViews.ExpandedIffTexts` | src/conversation_views.rs:52-76 | a window is restored if and only if every reference leads, through earlier messages only, to a text, which then replaces it |
| `ConversationViews.ReferencesAreOriginals` | src/conversation_views.rs:29-34 | a reference points to an earlier, unrewritten, unprotected message with equal text, and only unprotected messages are rewritten |
| `CsvTable.JsonTable` | src/structured_views.rs:19-73 | a table is written if and only if there are at least five objects with the columns of the first; the CSV, if every value is a string and it saves tokens, is its first line and a table that reads back as the columns and then the cells of every object; the rows of the typed table rebuild every object |
| `CsvTable.FieldReads` | src/structured_views.rs:75-81 | a cell, quoted or bare, is read back by an RFC 4180 reader with the text after it untouched |
| `CsvTable.QuotedIfNeeded` | src/structured_views.rs:75-81 | a cell is quoted exactly where the reader would not read it bare |
| `CsvTable.RecordReads` | src/structured_views.rs:60-66 | a line of any cells is read back as those cells, line breaks inside cells included |
| `CsvTable.TableReads` | src/structured_views.rs:49-67 | every header and cell comes back in row and column order |
| `CsvTable.TypedRowsAreObjects` | src/structured_views.rs:29-45 | the rows of the typed table rebuild every object of the array, whatever its cells, in order |
| `CsvTable.ObjectsComeBack` | src/structured_views.rs:50-67 | reading the CSV gives the columns and then, for each object in order, cells that rebuild it |
| `BytePairs.CountSmall` | crates/lm-resizer-core/src/tokenizer/count_only.rs:76-89 | the scan-and-remove loop makes the greedy merges: lowest rank first, leftmost among equals, until no pair has a rank |
| `BytePairs.BestIsUnique` | crates/lm-resizer-core/src/tokenizer/count_only.rs:79-83 | the pair that the minimum selects is the only one with lowest rank and leftmost place |
| `BytePairs.CountIsGreedy` | crates/lm-resizer-core/src/tokenizer/count_only.rs:76-89 | the count is the number of tokens left by a run from single bytes that merges the best pair at each step and ends when no pair has a rank |
| `BytePairs.CountHeap` | crates/lm-resizer-core/src/tokenizer/count_only.rs:118-162 | the linked list with a stale-checked priority queue returns the same count as the scan, for every piece and every table of ranks |
| `BytePairs.MergeIsGreedy` | crates/lm-resizer-core/src/tokenizer/count_only.rs:134-146 | an entry that passes the stale check is the pair the scan would merge, and merging it keeps list and queue complete but for its two neighbours |
| `BytePairs.StaleIsNotNeeded` | crates/lm-resizer-core/src/tokenizer/count_only.rs:135-140 | an entry that fails the check can be dropped: every live pair is still queued |
| `BytePairs.MergeKeepsLinks` | crates/lm-resizer-core/src/tokenizer/count_only.rs:141-145 | the three link updates turn the list of the old boundaries into the list of the new ones |
| `BytePairs.NearPairsQueued` | crates/lm-resizer-core/src/tokenizer/count_only.rs:147-159 | pushing the pairs on both sides of the merged token makes the queue complete again |
| `BytePairs.EmptyQueueIsDone` | crates/lm-resizer-core/src/tokenizer/count_only.rs:134-134 | when a complete queue is empty, no merge is left |
| `BytePairs.CountPiece` | crates/lm-resizer-core/src/tokenizer/count_only.rs:103-110 | the choice of algorithm by length never shows |
| `VocabularyIndex.Build` | crates/lm-resizer-core/build.rs:18-47 | for any vocabulary that fits, the table holds every rank at the end of a probe sequence over lower ranks and nothing else; both files are written from it |
| `VocabularyIndex.HashVectors` | crates/lm-resizer-core/build.rs:28-31 | the hash gives the published values of 64-bit FNV-1a |
| `VocabularyIndex.FreeSlot` | crates/lm-resizer-core/build.rs:31-35 | the probe loop ends, because the table is never full, and its slot extends the table by the next rank |
| `VocabularyIndex.EmptyOnPath` | crates/lm-resizer-core/build.rs:32-34 | a table that is not full has an empty slot on every probe sequence |
| `VocabularyIndex.Inserts` | crates/lm-resizer-core/build.rs:35-38 | writing a rank at the first empty slot of its path keeps every earlier rank reachable |
| `VocabularyIndex.StoredIsToken` | crates/lm-resizer-core/build.rs:21-38 | the bytes stored at the offset of a rank are that token |
| `VocabularyIndex.EntryReads` | crates/lm-resizer-core/build.rs:43-46 | the offset and rank read from the index file at a slot are those of the slot |
| `Bytes.LeDigit` | crates/lm-resizer-core/build.rs:43-46 | an integer is written by its digits to the base 256, the lowest first |
| `VocabularyIndex.MeetsFirstRank` | crates/lm-resizer-core/src/tokenizer/count_only.rs:49-61 | probing meets the first rank of a token before any other copy of it and before any empty slot, and an empty slot only if the token is absent |
| `VocabularyIndex.Look` | crates/lm-resizer-core/src/tokenizer/count_only.rs:50-60 | one probe of the two files ends the lookup with its rank, or shows that the slot holds another token |
| `VocabularyIndex.Get` | crates/lm-resizer-core/src/tokenizer/count_only.rs:41-62 | the lookup in the two files terminates and returns the rank of the bytes, or nothing if and only if they are no token |
| `TokenMetrics.TokenCache.Look` | src/token_metrics.rs:22-44 | the scan from newest to oldest returns an exact hit or the last reusable prefix it met |
| `TokenMetrics.TokenCache.Put` | src/token_metrics.rs:49-57 | eviction from the front ends, removes no more than needed, and the new entry goes last |
| `TokenMetrics.Evict` | src/token_metrics.rs:51-55 | what is left is the longest suffix of the cache that has room for the text |
| `TokenMetrics.LookupIsRight` | src/token_metrics.rs:24-48 | whatever the scan finds, the count built from it is the tokenizer's own |
| `TokenMetrics.LookupFinds` | src/token_metrics.rs:22-44 | a lookup hits exactly where the text is cached, on its newest entry; only without one it reuses the oldest entry that the text extends by a recovery line |
| `TokenMetrics.RecoveryLineExtends` | src/token_metrics.rs:29-40 | a text that ends with LF is reused under every recovery line of at most 100 bytes |
| `TokenMetrics.InsertKeeps` | src/token_metrics.rs:49-57 | inserting a right count keeps every entry right, at most three entries and at most 16 MiB |
| `TokenMetrics.InsertStores` | src/token_metrics.rs:49-57 | a text of at most 16 MiB is the newest entry afterwards and found by the next lookup; a longer one changes nothing |
| `TokenMetrics.TokenCache.Count` | src/token_metrics.rs:18-59 | a call returns the tokenizer's own count, and a text of at most 16 MiB is found by the next call |
| `TokenMetrics.StepHolds` | src/token_metrics.rs:22-58 | a lookup stays right whatever other calls do to the cache before it is used |
| `TokenMetrics.CachedIsUncached` | src/token_metrics.rs:18-59 | in every interleaving of any calls, every count returned is the tokenizer's own, and the cache has at most three entries and 16 MiB |
| `ProviderUsage.Scanner.Feed` | src/provider_usage.rs:103-114 | the drain loop hands over the complete lines in order and keeps the rest, or nothing when that is over 2^20 bytes |
| `ProviderUsage.Scanner.Finish` | src/provider_usage.rs:137-148 | a last piece without LF counts as a line; the summary says whether the stream completed, and there is none when no event held any usage |
| `ProviderUsage.Scan` | src/provider_usage.rs:102-149 | feeding chunks and finishing summarizes the lines that the scanner gets to see, or reports nothing when they hold no usage |
| `ProviderUsage.FoldHandsAll` | src/provider_usage.rs:103-114 | a reader that keeps the lines it is handed ends with all of them, in order |
| `ProviderUsage.CutIsExact` | src/provider_usage.rs:103-114 | for one way of cutting, the lines seen are those of the whole stream if and only if no partial line over the bound meets a chunk boundary |
| `ProviderUsage.ChunkingIsInvisible` | src/provider_usage.rs:103-149 | every way of cutting a stream gives the same lines if and only if no line is longer than 2^20 bytes |
| `ProviderUsage.UsageTap.Fire` | src/provider_usage.rs:173-177 | the callback runs at most once, with the usage of everything scanned |
| `ProviderUsage.UsageTap.PollNext` | src/provider_usage.rs:186-202 | items pass through untouched; the end of the stream, and only it, completes and reports |
| `ProviderUsage.UsageTap.Drop` | src/provider_usage.rs:205-209 | dropping reports once if nothing was reported before, as incomplete |
| `ProviderUsage.TapRun` | src/provider_usage.rs:180-209 | over any polls and the drop after them, there is exactly one report, completed if and only if the end was seen, with the summary of the chunks passed on |
| `SignalRelay.InitHolds` | src/capture_interrupt.rs:210-236 | the state after installation meets the invariant |
| `SignalRelay.StepHolds` | src/capture_interrupt.rs:172-185 | every single step of any handler or of `set_child` keeps the invariant: what is pending is the last published signal, not yet taken, some swap is still ahead of it, and every taken signal is sent or in flight |
| `SignalRelay.RunHolds` | src/capture_interrupt.rs:172-256 | the invariant holds after every run |
| `SignalRelay.NoInterruptionIsLost` | src/capture_interrupt.rs:172-256 | in every interleaving, once all are finished: nothing is pending, exactly the raised signals were published, the value of the last published one was passed to `kill` for the child, and every value passed to `kill` is that of a different publication and goes to the child |
| `SignalRelay.ValuesNext` | src/capture_interrupt.rs:172-185 | no step separates a value swapped out of `pending` from the publication it came from |
| `SignalRelay.SignalsAreCoalesced` | src/capture_interrupt.rs:172-256 | in every interleaving a published signal reaches the child if and only if a swap falls between it and the next one |
| `SignalRelay.RelayFinishes` | src/capture_interrupt.rs:172-185 | an unfinished relay always has a step, and every step but a new signal brings its end nearer |
| `SignalRelay.ChildIsReached` | src/capture_interrupt.rs:239-248 | the target of a child that leads a group reaches exactly the group, that of another child the child alone, and only an id beyond 31 bits has none |
| `CommandCapture.RunShared` | src/command_capture.rs:422-485 | over any sequence of reads and write errors the capture of one pipe returns what it received; the hint names the digest exactly when every chunk was archived and the file got or already had that name; the file it names then holds what was received exactly when no other file had the name before; a partial archive holds the chunks before the first failed write and the written part of that chunk |
| `CommandCapture.TakeShared` | src/command_capture.rs:447-473 | one read: an interruption changes nothing, a failure ends the capture, and a chunk is archived before it joins the log |
| `CommandCapture.WrittenUpTo` | src/capture_interrupt.rs:84-95 | what reaches the archive of a pipe is the chunks before the first failed write, whichever that is, and the written part of that chunk |
| `CommandCapture.AppendFollows` | src/capture_interrupt.rs:84-95 | after any append, failed or partly written, the archive is a prefix of what was received, and all of it while complete |
| `CommandCapture.ConservedNext` | src/command_capture.rs:287-306 | no step loses, duplicates or reorders a byte of either stream: what was read is in the buffer, in hand, in the queue or with the worker, in that order |
| `CommandCapture.TeeNext` | src/command_capture.rs:361-363 | the archive is never more than the log and the chunk in hand, and equals them while complete |
| `CommandCapture.StepHolds` | src/command_capture.rs:287-392 | every step of the workers and the consumer keeps the whole invariant |
| `CommandCapture.CaptureIsExact` | src/command_capture.rs:349-419 | in every schedule, a capture that ends without a read error returns both streams exactly, and its log is an interleaving of their chunks |
| `CommandCapture.TeeIsAPrefix` | src/command_capture.rs:361-410 | at every moment of every schedule, read and write errors included, the archive is a prefix of the log and of at most the chunk in hand |
| `CommandCapture.DiskGrows` | src/capture_interrupt.rs:84-124 | no step takes a byte from the archive |
| `CommandCapture.DiskIs` | src/capture_interrupt.rs:84-95 | at every moment of every schedule the archive holds exactly the chunks archived before the first failed write and the written part of that chunk |
| `CommandCapture.PartialArchiveIsExact` | src/capture_interrupt.rs:99-124 | in every schedule a partial archive holds exactly those bytes, and all of the log if no write failed and only the renaming did |
| `CommandCapture.NamedArchiveIsExact` | src/capture_interrupt.rs:99-124 | in every schedule, an archive named after the digest holds the log if and only if no other file had that name before; any other archive holds a prefix of the log, and there is no hint exactly when the file could not be created |
| `CommandCapture.StaleArchiveIsNamed` | src/capture_interrupt.rs:114-115 | a complete capture over any other file of that name names that file and removes the exact copy |
| `CommandCapture.StaleArchiveHappens` | src/capture_interrupt.rs:114-123 | such a run: one byte is captured, and the hint names an empty file |
| `CommandCapture.WritePrivateArchive` | src/main.rs:5802-5844 | a file of that name is compared and written again if it differs, so that success leaves the exact bytes, except that a longer file passes for an empty archive; a failed write leaves a truncated file under the name |
| `CommandCapture.CaptureAndArchive` | src/main.rs:5764-5796 | whatever a capture found under the name, the archive that a report names afterwards holds what was captured, if that is anything |
| `CommandCapture.CaptureFinishes` | src/command_capture.rs:349-419 | no schedule blocks before the archive is named, and every step but an interrupted read brings that nearer |
| `McpProxy.RecoverableIffFresh` | crates/lm-resizer-core/src/ccr/backends/sqlite.rs:121-206 | a text can be retrieved if and only if its last write is less than half an hour old |
| `McpProxy.PurgedTracks` | crates/lm-resizer-core/src/ccr/backends/sqlite.rs:121-129 | purging forgets no text whose last write has not expired |
| `McpProxy.TableIsOutstanding` | src/mcp_proxy.rs:44-83 | after every step of every run the table holds exactly the calls of this run that were neither repeated, cancelled nor answered since, each with the request of its call |
| `McpProxy.RewritesAnswerCalls` | src/mcp_proxy.rs:113-147 | in every run a rewritten reply answers a `tools/call` that the client made and that is still outstanding |
| `ProxyRuns.MadeForCalls` | src/mcp_proxy.rs:113-147 | in every run and for every id, the rewritten replies and error replies sent to it number at most the calls made with it, and an outstanding call has none yet |
| `ProxyRuns.FailsOnce` | src/mcp_proxy.rs:359-380 | in every run each id gets at most one error reply |
| `ProxyRuns.FailureStep` | src/mcp_proxy.rs:359-380 | the drain sends one error reply to each pending id, and nothing else sends any |
| `ProxyRuns.EveryReplyPasses` | src/mcp_proxy.rs:340-380 | in every run the answers that the client gets to an id are the server's replies to it that were read, and the error reply |
| `ProxyRuns.AnswersOfCall` | src/mcp_proxy.rs:315-380 | in every run a call whose id the client does not use again gets exactly the server's replies to it; with none, and unless it was cancelled, the drain sends one error reply |
| `ProxyRuns.TwiceIfRepeated` | src/mcp_proxy.rs:113-120 | such a call is answered more than once if and only if the server repeats its id |
| `ProxyRuns.RepeatedReplyPasses` | src/mcp_proxy.rs:113-120 | a run with one call and two answers |
| `McpProxy.Proxy.ProcessUpstreamLine` | src/mcp_proxy.rs:94-147 | the outcome, the table and the store after each kind of line at any time |
| `McpProxy.Proxy.CompressResult` | src/mcp_proxy.rs:171-250 | the loop over blocks rewrites each block and the store as specified, with the write, the purge and the read of each |
| `McpProxy.CandidateNamesKey` | src/mcp_proxy.rs:212-219 | a candidate always names the key of its original, added or already present |
| `McpProxy.CandidateIsHinted` | src/mcp_proxy.rs:212-219 | the text that is sent starts with the output of the pipeline; nothing follows if that names the key, and otherwise the hint, on a row of its own |
| `McpProxy.RewriteAllShortens` | src/mcp_proxy.rs:177-248 | each block is left alone or replaced by the hinted output of the pipeline for its own text and the query, shorter than the text, whose key gives the original at that time; it is replaced wherever the tools give such an output |
| `McpProxy.UpstreamIsFaithful` | src/mcp_proxy.rs:94-147 | a line is dropped only if blank; the blocks of one that answers a pending tool call without an error are shortened exactly so, with the query of that call, and any other line passes |
| `McpProxy.StepHolds` | src/mcp_proxy.rs:315-380 | every step of either thread, of the clock and of the store keeps the invariant, purges included |
| `McpProxy.RunKeepsAnswers` | src/mcp_proxy.rs:340-380 | over any run, the client receives the handled lines in order, each as it came or shortened exactly so with the query of the call that it answers, then the error replies of the drain, to different ids |
| `McpProxy.OriginalsStayUntilExpiry` | src/mcp_proxy.rs:211-219 | over any run, the original of each rewritten block could be read when its line was sent, and can be read later if and only if its last write is less than half an hour old |
| `McpProxy.ExpiryHappens` | crates/lm-resizer-core/src/ccr/backends/sqlite.rs:121-129 | a run in which the original of a rewritten answer is lost |
| `McpProxy.ExpiryLoses` | crates/lm-resizer-core/src/ccr/backends/sqlite.rs:121-129 | the same for every text that is shortened, every tool and every key |
| `ProxyRuns.NoLineIsLost` | src/mcp_proxy.rs:340-355 | in every run, what the client is shown corresponds one to one, in order, to the non-blank lines read; once the reader has stopped these are all lines before the first one that is no UTF-8 |
| `ProxyRuns.AllIsShownIfValid` | src/mcp_proxy.rs:340-344 | once the reader has stopped, as many lines were shown as the server wrote non-blank ones if and only if every line is UTF-8 |
| `ProxyRuns.InvalidLineHidesReply` | src/mcp_proxy.rs:340-380 | a run in which an invalid line hides the answer after it and the client gets an error reply |
| `Binlog.Cursor.ReadI7` | src/parity_filters.rs:57-72 | the cursor loop reads the base-128 integer at the front and leaves the cursor where the specification says, failures included |
| `Binlog.Cursor.ReadStringAt` | src/parity_filters.rs:1154-1178 | the recursive reader follows index 2 at most five times and otherwise names a string, the empty string or null |
| `Binlog.Cursor.ScanEventHeader` | src/parity_filters.rs:1096-1147 | the cell interpreter reads the layout that the flags and the version announce |
| `Binlog.ReadIssueRecord` | src/parity_filters.rs:1060-1084 | the reader of one record is the specified one, partial reads and missing cells included |
| `Binlog.NextRecord` | src/parity_filters.rs:1003-1024 | one turn of the record loop: stop, define a string, skip, or report |
| `Binlog.SummarizeBinlog` | src/parity_filters.rs:993-1027 | the whole reader finds exactly the issues of the specification, or none |
| `Binlog.I7RoundTrip` | src/parity_filters.rs:1526-1538 | every 32-bit integer is read back and nothing after it is touched |
| `BinlogEdges.I7Exact` | src/parity_filters.rs:57-72 | an integer is read from its digits up to the first below 128, if there is one among five, and exactly if it fits 32 bits |
| `Binlog.ReferenceReads` | src/parity_filters.rs:1154-1178 | a string reference through up to five hops reads as the text it names, and nothing after it is touched |
| `BinlogEdges.SixHops` | src/parity_filters.rs:1154-1178 | a string reference of six hops reads as null |
| `Binlog.HeaderReads` | src/parity_filters.rs:1096-1147 | a header of any of its optional parts (message, context of seven integers, timestamp, extended texts, arguments, importance), written in that order under the sum of their flags, is read to its end with its message |
| `Binlog.FlagBits` | src/parity_filters.rs:1096-1147 | the sum of the flags of the parts that are there has exactly their bits set |
| `Binlog.MessageIsFirstCell` | src/parity_filters.rs:1103-1129 | the message is the text of the first cell when the flags announce one and null otherwise; no other cell is taken for it |
| `Binlog.IssueReads` | src/parity_filters.rs:1547-1573 | a written diagnostic is read back with its code, file, line, column and message, and one without code and message reports nothing |
| `Binlog.LogReads` | src/parity_filters.rs:1003-1024 | the issues of any sequence of records come back in order, each read with the strings defined before it |
| `BinlogEdges.CutLogReads` | src/parity_filters.rs:1003-1024 | a log that is cut anywhere in its last record reads as the log without it |
| `BinlogEdges.MissingNumbers` | src/parity_filters.rs:1060-1084 | a diagnostic whose record ends after its project is reported with line and column 0 |
| `BinlogEdges.MissingTexts` | src/parity_filters.rs:1060-1084 | one whose record ends before its project, after any of its other parts, is not reported |
| `BinlogEdges.OldLogsAreRefused` | src/parity_filters.rs:993-1000 | a log below version 18 gives no summary |
| `Binlog.SummaryReads` | src/parity_filters.rs:993-1027 | for every version that the reader takes, reading inverts writing for whole logs, the headers written part by part |
| `CivilDate.Epoch` | src/parity_filters.rs:349-352 | 1970-01-01 is day 0 |
| `CivilDate.CountsFromMarch` | src/parity_filters.rs:324-353 | the count is the one of the calendar that starts in March, with (153 * m + 2) / 5 for the days before a month |
| `CivilDate.ValidByCount` | src/parity_filters.rs:326-344 | a day of the month is accepted if and only if its count lies before the first of the next month |
| `CivilDate.YearLength` | src/parity_filters.rs:345-348 | the correction terms count exactly the leap years, before year 1 as well |
| `CivilDate.TomorrowIsOneMore` | src/parity_filters.rs:324-353 | the count rises by exactly one from each date to the next, across month, year and leap-year boundaries |
| `CivilDate.CountIsMonotonic` | src/parity_filters.rs:324-353 | the count is strictly increasing in calendar order |
| `CivilDate.CountIsInjective` | src/parity_filters.rs:324-353 | different dates have different counts |
| `CivilDate.CountIsOnto` | src/parity_filters.rs:324-353 | every integer is the count of a date |
| `CivilDate.CycleOf400Years` | src/parity_filters.rs:345-352 | 400 years are 146097 days |

## Hypotheses

Foreign code enters as parameters. Where a theorem needs something of it, the hypothesis is a named predicate.

* `TokenMetrics.SplitsAtBracket`: the empty text has no tokens, and counting is additive where a text that ends with
  LF meets one that starts with `[`. The source states this boundary at src/token_metrics.rs:29-31.
* `McpProxy.ContentAddressed`: no two texts have the same store key. The clock of the store never goes back.
* `TextDictionary.IsCut`: the matches of the word pattern are in order, do not overlap, and contain neither `~` nor LF.
* `VocabularyIndex.Packable`: token lengths fit 16 bits and offsets stay below the mark of an empty slot, as the build
  script needs for its own conversions; with fewer tokens than slots.
* `Expansion.Possible`: only a text that starts with `{` after white space can be a conversation envelope, and what it
  expands to is a printed array.

## Left out

- Process creation, pipes, files, SQLite, HTTP, the terminal and environment variables: only the steps named above are
  modelled.
- Weak memory in the signal relay: steps interleave sequentially consistently, whereas the code uses release and
  acquire operations. A failed `signal` call during installation, the restoring of the previous handlers when the
  guard is dropped, and the Windows relay are not modelled.
- Echoing chunks to the terminal during a streamed capture, and the exit status of the child.
- The names of temporary archives. An error of `sync_all` in `finish` is only reported by the source: `Files` are the
  contents while the system stays up, and what a power failure leaves of a named archive is not modelled.
- `write_private_file`, which replaces `write_private_archive` outside Unix.
- Two processes that archive the same log at one time: `Ending.existing` is the file that `finish` meets.
- The regular expressions that find words and pieces, the real tokenizer, SHA-256 and gzip.
- The tokenizer behind every choice by token saving: `PatchView.Render`, `ConversationViews.Fold` and
  `CsvTable.JsonTable` take the outcome of the comparison as a parameter, and the folds and `log_runs` stand before it.
- JSON beyond strings and objects of strings: conversation windows, proxied messages and table rows are modelled after
  parsing, so the parsing and printing of their envelopes is not covered.
- The printing of the typed JSON table, `json_compact` and `diff_metadata`.
- The merging of usage counters in one event and the name of the source: `ProviderUsage.Fold` takes the treatment of
  one line as a parameter.
- The time that passes while the proxy handles one line: its puts and gets see one time. A purge that fails leaves
  expired rows behind, which `get` then skips.
- Failed writes to the client of the proxy: the source ignores them.
- `BinaryHeap` inside `count_heap`: a multiset from which the least entry is taken.
- TRX and other XML reports, `bound_to_latest_cohort`, format and Playwright reports: the attribute reader can stand
  still on malformed text, so that a total model would not be the code.
- `HistoryTotals` and `summarize_history`: sums over parsed records, only easy members.
- The heuristic views (inspection, package and command views, source outlines): presentation choices without a
  specification.
- Which error a failing operation reports: `Result` and `Option` keep only that it failed.
- FoldedLogs.LogsThroughExpand: a log under an LMR heading with nothing to fold is its own view, and the lemma says only
  that it is decoded as that view; `FoldedLogs.UnendedLmrIsRefused` and `SelfReading.LogReadsItself` show that both
  outcomes occur.
- Expansion.TextIsKept: the same for a kept text under an LMR heading without a marker.
- Expansion.Expand: whether a view is a conversation envelope, and what it expands to, are parameters, because the JSON
  of envelopes is not modelled; `ConversationViews` has the decoder on parsed messages.
- TextDictionary.FactorText: the word matches and the ranked list of words are parameters; the threshold on occurrences
  and the order of the ranking are not modelled. `RepeatRows.FromPattern` is the word pattern; that its matches are the
  leftmost longest ones is not used, and the round trip holds for any cut.
- TokenMetrics.TokenCache.Count: one call without others in between; `TokenMetrics.CachedIsUncached` covers the
  interleavings.
- Binlog.SummarizeBinlog: starts after gzip inflation and returns the issues themselves instead of the printed report.
