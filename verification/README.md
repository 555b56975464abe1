# Iceberg verification harness: op-log runners, generator and judges

This project models the harness that checks Apache Iceberg implementations against each other. An
op-log (appends, deletes, schema changes, rewrites, observes) is run by a runner on a real table;
the output is compared with a golden, with another runner, or with the prediction of the generator
that wrote the log.

The model has four linked parts.

- The runner. `Layout.dfy` and `Tables.dfy` hold the merge-on-read table: data files, position
  deletes, sequence numbers and snapshots, with the scan rule of the Apache Iceberg table
  specification, sections "Position Delete Files" and "Scan Planning". `PositionDeletes.dfy` and
  the class in `Interpret.dfy` are the Java runner over it. `Replay.dfy` is the same run told in
  rows only, and every method of the class is proved to follow it. `ReplayLaws.dfy`,
  `AppendLaws.dfy`, `CompactionLaws.dfy`, `BindLaws.dfy`, `GoReads.dfy` and `GoNames.dfy` prove what the
  design document promises: compaction is invisible, appends commute, time travel is replay, binds are
  stable; and when the Go runner, on the same history, shows and names columns as the Java runner does.
  `DecodeLaws.dfy` shows that emission loses nothing, so that judges of decoded rows judge records.
- The generator. `Generator.dfy` and the class in `GenState.dfy` follow the Go code with the random
  source as an arbitrary stream of choices; `GenLog.dfy` is an independent replay of the logged ops
  in which a delete compares numbers by value. A logged row and the live row it became share their
  cells, as in the source, so a later promotion shows in earlier ops of the finished log.
- The judges. `Compare.dfy`, `ReadDiff.dfy`, `Metamorphic.dfy` and `Shrink.dfy`.
- The two translations. `Predicates.dfy` relates the Java predicate matcher to the Go lowering,
  `LoweringLaws.dfy` says on which predicates the two mean the same for every record a file can hold,
  `Transpose.dfy` the Go and Rust column-to-row decoders with each other and with Java's row decoder.

`EndToEnd.dfy` joins them: a generated log, run on the file-level table and checked by the
metamorphic check, is never rejected at format version 2; at the others the verdict is told by
whether the log holds a delete. `LoweredPromotions.dfy` adds that promotions keep step as well.
`Counterexamples.dfy` holds one concrete log for each property that fails.

`PredicateMeaning.dfy`, `RunMeaning.dfy`, `JudgedDocuments.dfy` and `Spelling.dfy` say what the results
come to without the functions that compute them: which rows a comparison deletes in the order of the values
themselves, what a cell that was written shows after any run and after any promotion, and what each
judge accepts and rejects by the members of the JSON it is given. `Documents.dfy` writes the emitted
document and reads it back. `Draws.dfy` is the generator as a function of its choices.

Values, schemas and promotion are in `Values.dfy`, what a runner emits in `Emit.dfy`, decimal numbers
and their text in `Numerals.dfy`, sorting in `Text.dfy`, sequences and bags in `Seqs.dfy`. `canon`,
the JSON encoder, is a parameter taken to be injective; the Go library's cast of a literal and the
shrinker's divergence test are parameters; snapshot ids are any unused numbers; the order in which a
scan plans files and a map is iterated is left open.

Results where the code differs from what one might expect of it, each with its exact condition:

- The design's "count equals summary" fails after a merge-on-read delete that removes a live row, until
  the next rewrite that consolidates (`CountEqualsSummary`; `CountFails` is such a log).
- The Java runner relabels columns at the first schema change, so a bind read after it can show other
  labels than before, and the Go runner can label differently from the start (`BindStability`,
  `RunnersAgreeExactly`; `BindMoves` and `RunnersDisagree` are such logs). Likewise the two can
  resolve a field id to different columns after a schema change (`NamesResolveAlike`,
  `EvolveAlikeExactly`; `IdsMove`).
- A bind names the table's current snapshot, not the point its observe read (`BindIgnoresPoint`;
  `BindReadsAnother`), so a rewrite after a promotion changes what a later bind shows
  (`RewriteRebinds`; `RewriteMoves`).
- A decimal in-list means different things in Go and Java when it holds a value of the column only
  under another scale (`SetTestExactly`; `DecimalInListDiverges` is such a list).
- A promotion rewrites the tags of rows already logged (`TagKeptExactly`; `TagWrittenThrough` is such
  a log). No promotion is reachable from the seed schemas, so `Generate` does not show it.
- The golden comparator sees the order of different rows that share a row key (`OrderBlindExactly`);
  the read differ does not look at a column only the reader has (`ExtraColumnUnseen`); the metamorphic
  check does not count a row without a key (`ExtraRowAccepted`).
- The fuzzer asks for deletes at every format version, so at version 1 it calls every generated log
  with a delete an invalid spec (`FuzzSeed`; `VersionOneAlarm`).

## Model

| member | source | states |
|---|---|---|
| Interpret.Execute | runners/java/src/main/java/org/apache/iceberg/verification/Interpret.java:97-119 | For every header and op-log the file-level run emits what the logical replay emits: every snapshot identical, every observation with the same point, bind and schema and the same bag of rows; a log that fails, fails with the replay's error |
| Interpret.Interpret.constructor | runners/java/src/main/java/org/apache/iceberg/verification/Interpret.java:97-116 | A new table agrees with the empty logical state |
| Interpret.Interpret.ApplyEntry | runners/java/src/main/java/org/apache/iceberg/verification/Interpret.java:162-174 | One entry either ends in the logical step's state with the class in agreement with it, or raises exactly the logical step's error |
| Interpret.Interpret.DoAppend | runners/java/src/main/java/org/apache/iceberg/verification/Interpret.java:177-186 | One file is added, its rows join the live rows, the commit gets the next ordinal; the first bad row, missing required value or decimal the column cannot hold decides the error |
| Interpret.Interpret.DoDelete | runners/java/src/main/java/org/apache/iceberg/verification/Interpret.java:255-274 | The unsupported kinds are refused in order; otherwise exactly the live rows the predicate matches go; no match commits nothing, and is an error only on a table without a snapshot |
| Interpret.Interpret.DoRewrite | runners/java/src/main/java/org/apache/iceberg/verification/Interpret.java:334-356 | With more than one file the live rows end up in one fresh file and the history grows by a replace commit; with one file or none nothing changes; the runner raises no error of its own |
| Interpret.Interpret.DoEvolve | runners/java/src/main/java/org/apache/iceberg/verification/Interpret.java:283-327 | Promotions apply in order with no commit; labels become positional; an unknown id or an illegal widening leaves the error of the first such change |
| Interpret.Interpret.DoObserve | runners/java/src/main/java/org/apache/iceberg/verification/Interpret.java:358-406 | Adds one observation, of latest, an ordinal or a bind, under the schema of the snapshot read; a bind records the current snapshot; only an unknown bind or ordinal fails |
| Interpret.Interpret.ResolveAt | runners/java/src/main/java/org/apache/iceberg/verification/Interpret.java:362-381 | Finds the snapshot of the commit the logical observe reads, or the same unknown-bind or unknown-ordinal error |
| Interpret.Interpret.ReadAt | runners/java/src/main/java/org/apache/iceberg/verification/Interpret.java:387-400 | The scan of a pinned snapshot gives that commit's schema and its bag of rows, whatever was committed later |
| Interpret.Interpret.SchemaAt | runners/java/src/main/java/org/apache/iceberg/verification/Interpret.java:409-423 | In a valid state: the schema of the logical commit the snapshot id names, or the current schema when it names none |
| Interpret.Interpret.SnapshotForOrdinal | runners/java/src/main/java/org/apache/iceberg/verification/Interpret.java:425-432 | Inverts the id-to-ordinal map in any iteration order: the id of commit k for every k below the number of commits, nothing otherwise |
| Interpret.Interpret.RecordSnapshot | runners/java/src/main/java/org/apache/iceberg/verification/Interpret.java:435-461 | Brings ordinals and emitted snapshots level with the history, also after a delete that committed nothing; fails only when there is no snapshot |
| Interpret.NewOrdinal | runners/java/src/main/java/org/apache/iceberg/verification/Interpret.java:435-447 | Ids and ordinals stay in one-to-one correspondence, and the parent of a new snapshot has the ordinal before it |
| Interpret.OrdinalsFollowCommits | runners/java/src/main/java/org/apache/iceberg/verification/Interpret.java:435-461 | Emitted snapshot i has ordinal i and parent i-1, none for 0, in every run that succeeds |
| Interpret.PromoteColumns | runners/java/src/main/java/org/apache/iceberg/verification/Interpret.java:283-327 | The loop of column updates computes the promoted schema or the first error |
| Interpret.ReadRows | runners/java/src/main/java/org/apache/iceberg/verification/Interpret.java:345-351 | Reads the live rows of the files as a bag, in whatever order they are planned |
| Interpret.DecodeAll | runners/java/src/main/java/org/apache/iceberg/verification/Interpret.java:396-400 | Every record read is decoded, in order |
| Interpret.PlanSetSize | runners/java/src/main/java/org/apache/iceberg/verification/Interpret.java:335-344 | The set of planned files has as many members as the table has files, so the size guard counts files |
| RunMeaning.AppendShown | runners/java/src/main/java/org/apache/iceberg/verification/Interpret.java:189-235 | After any run, append rows and observe latest: row j shows under the key of each column the value its cell was written with: a boolean as that boolean, an int, float or double as a number of that value, a long and a decimal as its text, a string as it was, with the word of the column's type; a cell left out or null is not shown, and 0 shows the row key |
| RunMeaning.RowTaken | runners/java/src/main/java/org/apache/iceberg/verification/Interpret.java:189-235 | A row is appended iff every cell is either null in an optional column or a literal in the range of its column: 32 or 64 bits, and for decimals the column's scale and no more digits than its precision |
| RunMeaning.UnreadableCellRefused | runners/java/src/main/java/org/apache/iceberg/verification/TypedValue.java:100-130 | A nested cell, or an integer too wide for its column, ends the append with the error that names it |
| RunMeaning.UnwritableCellRefused | runners/java/src/main/java/org/apache/iceberg/verification/Interpret.java:177-235 | A missing required value, or a decimal without room, ends the append with the error that names the column |
| RunMeaning.PromotionKeepsRows | runners/java/src/main/java/org/apache/iceberg/verification/Interpret.java:283-327 | Over every run that goes on by a schema change: row i and column c hold after it the number they held before, an int in a long column as the long, a float in a double column as the double, every other value as it was, and no cell appears or vanishes |
| RunMeaning.PromotionShown | runners/java/src/main/java/org/apache/iceberg/verification/Interpret.java:387-400 | So it is observed: each cell shown at latest before the change is shown after it, under the column's new label, with the same value |
| RunMeaning.PromotionTaken | runners/java/src/main/java/org/apache/iceberg/verification/Interpret.java:283-327 | A promotion of the column authored under an id is taken iff the type stays, is int to long, float to double, or a decimal of more digits; then that column alone has the new type; otherwise the error names the column |
| RunMeaning.UnknownIdRefused | runners/java/src/main/java/org/apache/iceberg/verification/Interpret.java:283-327 | An id the header does not declare, other than 0, is refused with that id |
| RunMeaning.SchemaShown | runners/java/src/main/java/org/apache/iceberg/verification/Decode.java:39-49 | An observe of latest lists the row key as column 0, a string, and then the header's columns in order with the words of their types, under the declared ids before the first schema change and under their positions after it |
| RunMeaning.DeleteByComparison | runners/java/src/main/java/org/apache/iceberg/verification/PredicateMatcher.java:53-79 | At version 2 a delete by one of the six comparison words, against a written integer, number, text or boolean, succeeds on a table with a commit and keeps of every record all its copies or none: none iff its value stands to the literal as the word says, in the order of the values themselves |
| RunMeaning.AppendEmits | runners/java/src/main/java/org/apache/iceberg/verification/Interpret.java:435-473 | The snapshot an append emits: ordinal, parent, operation and every count of the summary, zeros left out |
| RunMeaning.DeleteEmits | runners/java/src/main/java/org/apache/iceberg/verification/Interpret.java:435-473 | The snapshot a delete that finds a stored match emits, with one parquet position-delete file |
| RunMeaning.QuietDelete | runners/java/src/main/java/org/apache/iceberg/verification/Interpret.java:255-274 | A delete that finds no stored match leaves the run as it was, and fails without a snapshot |
| RunMeaning.RewriteEmits | runners/java/src/main/java/org/apache/iceberg/verification/Interpret.java:334-356 | The snapshot a rewrite of two files or more emits |
| RunMeaning.ObservePoint | runners/java/src/main/java/org/apache/iceberg/verification/Interpret.java:358-406 | The observation names its bind where it has one, and otherwise the ordinal or the name it was asked for |
| PositionDeletes.DeleteByPredicate | runners/java/src/main/java/org/apache/iceberg/verification/PositionDeletes.java:60-104 | Listing every raw match and committing the list refines the logical delete; an empty list leaves the table alone; a format without row-level deletes rejects the commit |
| PositionDeletes.CollectPositions | runners/java/src/main/java/org/apache/iceberg/verification/PositionDeletes.java:107-124 | Extends the list by exactly the matching positions of one raw file, in order |
| PositionDeletes.PlanListsMatches | runners/java/src/main/java/org/apache/iceberg/verification/PositionDeletes.java:60-104 | Over any plan order, a position is listed iff its row matches, deleted or not; the list is empty iff no stored row matches |
| Layout.DeleteRemovesMatches | runners/java/src/main/java/org/apache/iceberg/verification/PositionDeletes.java:60-124 | Files minus recorded positions is the old scan minus the matching rows, although positions already deleted are listed again |
| Layout.UntouchedReadsWhole | runners/java/src/main/java/org/apache/iceberg/verification/Interpret.java:334-356 | A file newer than every position delete is read whole, whatever positions the old deletes list |
| Layout.AppendAddsRows | runners/java/src/main/java/org/apache/iceberg/verification/Interpret.java:177-186 | A new file adds its rows to the scan and disturbs no other |
| Layout.CompactionReadsWhole | runners/java/src/main/java/org/apache/iceberg/verification/Interpret.java:334-356 | Leftover position deletes never hit the combined file |
| Layout.PlanOrderFree | runners/java/src/main/java/org/apache/iceberg/verification/Interpret.java:334-402 | Any plan of the same files reads the same bag of live and of stored rows |
| Layout.LiveCount | DESIGN.md:149 | The scan count equals the stored count iff no current row is deleted |
| Tables.CommitRefines | runners/java/src/main/java/org/apache/iceberg/verification/Interpret.java:177-186 | A commit whose files read as the new rows keeps every earlier snapshot reading as before |
| Tables.AppendRefines | runners/java/src/main/java/org/apache/iceberg/verification/Interpret.java:177-186 | The append commit refines the logical append |
| Tables.RowDeltaRefines | runners/java/src/main/java/org/apache/iceberg/verification/PositionDeletes.java:79-104 | Committing the listed positions refines the logical delete |
| Tables.RewriteRefines | runners/java/src/main/java/org/apache/iceberg/verification/Interpret.java:334-356 | Swapping all files for their live rows refines the logical rewrite: live rows, history and later reads unchanged |
| Tables.SchemaRefines | runners/java/src/main/java/org/apache/iceberg/verification/Interpret.java:283-327 | A promotion refines the re-reading of all rows under the wider types; earlier snapshots keep their schema |
| Tables.SomeMatchIsStored | runners/java/src/main/java/org/apache/iceberg/verification/PositionDeletes.java:60-104 | The scan finds a position iff some stored row, live or dead, matches |
| ReplayLaws.RunInvariant | runners/java/src/main/java/org/apache/iceberg/verification/Interpret.java:97-174 | In every reachable state: binds point at commits, ordinals are in order, every commit's schema widens to the current one, live rows are stored rows, and all rows conform to the schema |
| ReplayLaws.RunIsPlain | DESIGN.md:143-147 | At every point of every run schema, labels and live rows are those of a replay that knows no files, snapshots or compaction; a delete there is set-minus |
| ReplayLaws.TimeTravelEqualsReplay | DESIGN.md:148 | Commit k holds the rows and schema of the replay of the entries up to it, whatever has run since |
| ReplayLaws.ObserveAtOrdinal | runners/java/src/main/java/org/apache/iceberg/verification/Interpret.java:358-406 | An observe at ordinal k, at any later point, emits the replay of the entries up to commit k |
| ReplayLaws.ObserveInvariant | runners/java/src/main/java/org/apache/iceberg/verification/Interpret.java:358-406 | An observe fails only for an unknown bind or ordinal, and changes only observations and binds |
| ReplayLaws.DeleteIsIdempotent | runners/java/src/main/java/org/apache/iceberg/verification/PositionDeletes.java:60-124 | A repeated delete succeeds and changes no live row |
| ReplayLaws.CountEqualsSummary | DESIGN.md:149 | Over every log that committed: the scan counts what the newest summary's total-records says iff no delete has hit a row since the last rewrite that found two files or more |
| ReplayLaws.BalancedExactly | DESIGN.md:149 | The same condition, read off the log alone, says when stored and live rows are as many |
| ReplayLaws.StepBalance | DESIGN.md:149 | Which single entry breaks or restores that balance: a delete that matches a live row, a rewrite of two files or more, and nothing else |
| Counterexamples.CountFails | DESIGN.md:149 | A log of an append and a delete after which the scan counts 0 and total-records does not |
| AppendLaws.AppendsCommute | DESIGN.md:145 | Two adjacent appends may be exchanged anywhere in any log: the exchanged log runs iff the original does; the rows of every commit but the one between the two are the same bag, no bind names that commit, and all snapshots but those of the two appends are emitted unchanged; unless a later entry reads that commit by ordinal the emitted observations are the same; all snapshots are the same iff the two appends have as many rows |
| AppendLaws.ExchangeUnseen | DESIGN.md:145 | After the exchange every observe, but one of the commit between the two appends, shows the same schema and the same bag of rows |
| AppendLaws.LatestUnmoved | DESIGN.md:145 | The last rows shown at latest are the same bag, under the same schema, with the two appends exchanged |
| ReplayLaws.RunSplit | runners/java/src/main/java/org/apache/iceberg/verification/Interpret.java:116-118 | A run may be cut anywhere and resumed from the state reached, errors included |
| ReplayLaws.PromotionsWiden | runners/java/src/main/java/org/apache/iceberg/verification/Interpret.java:283-327 | A list of accepted promotions only widens column types |
| ReplayLaws.WidensPositionalLabels | runners/java/src/main/java/org/apache/iceberg/verification/SchemaBuilder.java:79-90 | Positional labels do not notice a promotion |
| Values.ProjectCompose | runners/java/src/main/java/org/apache/iceberg/verification/Interpret.java:387-400 | Reading through an older schema first changes nothing: promotions compose |
| Values.ToRecordsConform | runners/java/src/main/java/org/apache/iceberg/verification/Interpret.java:189-235 | The records of an append conform to the schema in force |
| CompactionLaws.CompactionTransparent | DESIGN.md:144 | At every format version, dropping every rewrite from a log keeps success, rows, schema, labels and bind names, as long as no entry reads by ordinal |
| CompactionLaws.CompactionInvisible | DESIGN.md:144 | At every format version an observe at latest emits the same with and without the log's rewrites |
| BindLaws.BindStability | runners/java/src/main/java/org/apache/iceberg/verification/Interpret.java:358-406 | A bound name later shows the same schema iff no promotion lay between the last commit and the bind, and either no schema change followed, or one had run before, or the header numbers its columns in order; then also the same rows |
| BindLaws.RewriteRebinds | runners/java/src/main/java/org/apache/iceberg/verification/Interpret.java:403-405 | A rewrite that finds two files or more, just before a bind, leaves the bound read alone iff no promotion has run since the last commit |
| Counterexamples.RewriteMoves | runners/java/src/main/java/org/apache/iceberg/verification/Interpret.java:403-405 | Two appends and a promotion after which a rewrite changes the schema the next bind shows |
| BindLaws.LabelsOfRun | runners/java/src/main/java/org/apache/iceberg/verification/Interpret.java:97-119 | The labels of every reached state: authored until the first schema change, positional afterwards |
| Counterexamples.BindMoves | runners/java/src/main/java/org/apache/iceberg/verification/Interpret.java:326-326 | A log on which a bound name shows another schema after a promotion than when it was bound |
| DecodeLaws.BindIgnoresPoint | runners/java/src/main/java/org/apache/iceberg/verification/Interpret.java:403-405 | For an observe of latest, an ordinal or a bind that binds a name, whatever runs afterwards: the name shows the schema the observe showed iff the point's schema is the last commit's and no first schema change relabels the columns; and then, where cells never collide, the same rows iff the point's rows are the last commit's, as bags |
| BindLaws.BoundReads | runners/java/src/main/java/org/apache/iceberg/verification/Interpret.java:358-406 | What that observe and the later read of the name show, point and last commit, and when the two emitted schemas are equal |
| Counterexamples.BindReadsAnother | runners/java/src/main/java/org/apache/iceberg/verification/Interpret.java:403-405 | Two appends, an observe of the first commit that binds a name: the name shows other rows |
| BindLaws.LabelsSettle | runners/java/src/main/java/org/apache/iceberg/verification/Interpret.java:326-326 | Labels move only at the first schema change, to positions, for good |
| BindLaws.SchemaFieldsTell | runners/java/src/main/java/org/apache/iceberg/verification/Decode.java:39-49 | Two schemas that widen to a third, each under its labels, are emitted alike only if schemas and labels are equal |
| BindLaws.TypeNameTells | runners/java/src/main/java/org/apache/iceberg/verification/Decode.java:113-116 | Two types that can be promoted to a third have different names unless they are equal, decimal precision included |
| GoReads.GoBindStability | runners/go/interpret.go:403-473 | In Go a bound name later shows the same schema iff no promotion lay between the last commit and the bind, whatever is appended, deleted or promoted afterwards; then also the same rows |
| GoReads.RunnersAgreeExactly | runners/go/interpret.go:443-445 | On one history the Go and Java runners emit the same observation, at every point, iff the header ids are 1, 2, 3, ... or a schema change has run |
| GoNames.NamesResolveAlike | runners/go/interpret.go:234-241 | In every reached state the two runners resolve all field ids to the same columns iff, before any schema change, the header's ids are distinct and none is 0, or, after one, the header numbers its columns 1, 2, 3, ... |
| GoNames.EvolveAlikeExactly | runners/go/interpret.go:177-213 | From every reached state each schema change gives the same schema in Go as in Java, or fails in both, iff each id names the same column in both or columns of one type that has no wider one |
| GoNames.EvolveAlikeByHeader | runners/go/interpret.go:177-213 | So it does before any schema change when the header's ids are distinct and none is 0, and always when it numbers its columns in order |
| Counterexamples.IdsMove | runners/go/interpret.go:210-211 | A header and a first promotion after which a second promotion of the same id succeeds in Java and is refused in Go |
| Counterexamples.RunnersDisagree | runners/go/interpret.go:443-445 | A header on which the two runners emit different observations of the empty table |
| Emit.PositionalLabelsInjective | runners/go/schema.go:64-76 | Positional labels of different columns differ |
| Emit.LabelsAgreeExactly | runners/go/schema.go:51-76 | Authored and positional labels agree iff the header numbers its columns 1, 2, 3, ... |
| Emit.AuthoredApartExactly | runners/java/src/main/java/org/apache/iceberg/verification/SchemaBuilder.java:63-71 | Authored labels collide iff two header ids are equal or one is the row key's 0 |
| Emit.AuthoredLabelsAt | runners/java/src/main/java/org/apache/iceberg/verification/SchemaBuilder.java:63-71 | Each user column keeps the id its header declares |
| Emit.SchemaFieldsAt | runners/java/src/main/java/org/apache/iceberg/verification/Decode.java:39-49 | The schema is emitted iff every column has a label, and then position by position |
| Numerals.PlainTextRoundTrip | runners/java/src/main/java/org/apache/iceberg/verification/Decode.java:71-91 | The plain text of a decimal parses back to the same unscaled value and scale |
| Numerals.NormalUnique | runners/java/src/main/java/org/apache/iceberg/verification/Decode.java:71-91 | Two decimal numbers without trailing fraction zeros are equal in value only if they are the same digits and scale |
| Spelling.IntegerRead | runners/java/src/main/java/org/apache/iceberg/verification/TypedValue.java:100-130 | A text is read as an integer iff it is a sign or none and at least one digit, and its value is that of the digits read from the left |
| Spelling.DecimalRead | runners/java/src/main/java/org/apache/iceberg/verification/TypedValue.java:100-130 | A text is read as a decimal iff it is a sign or none, digits and at most one point; the value is that of all the digits and the scale the number behind the point |
| Spelling.BooleanRead | runners/java/src/main/java/org/apache/iceberg/verification/TypedValue.java:100-130 | The word true in any letter case is true and every other text is false |
| Spelling.DecimalSpelled | runners/java/src/main/java/org/apache/iceberg/verification/Decode.java:52-93 | Plain text has a minus for negative values only, no idle zero in front, and exactly as many decimals as the scale |
| Spelling.IntegerSpelled | runners/java/src/main/java/org/apache/iceberg/verification/Decode.java:52-93 | An integer is written with a minus for negative values only and no idle zero |
| DecodeLaws.EmittedTextParses | runners/java/src/main/java/org/apache/iceberg/verification/Decode.java:71-91 | Whatever is emitted as text, a long, decimal or string, parses back to the value the record holds |
| DecodeLaws.NodeTells | runners/java/src/main/java/org/apache/iceberg/verification/Decode.java:71-91 | Two values of one column are emitted alike iff they are equal |
| DecodeLaws.DecodedCell | runners/java/src/main/java/org/apache/iceberg/verification/Decode.java:52-63 | Under distinct labels the cell of a column holds its value, and is absent iff the value is null |
| DecodeLaws.RowTells | runners/java/src/main/java/org/apache/iceberg/verification/Decode.java:52-63 | Two typed records decode to the same row iff they are the same record |
| DecodeLaws.DecodedBagsTell | runners/java/src/main/java/org/apache/iceberg/verification/Decode.java:52-63 | Bags of decoded rows are equal iff the bags of records are |
| DecodeLaws.RunTyped | runners/java/src/main/java/org/apache/iceberg/verification/Interpret.java:189-235 | In every run the live rows have the types of their columns, through every promotion |
| DecodeLaws.RunLabelsApart | runners/java/src/main/java/org/apache/iceberg/verification/Interpret.java:97-119 | Cells of a decoded row never collide, in any reached state, iff the header ids are distinct and none is 0, or a schema change has run |
| DecodeLaws.LatestTells | runners/java/src/main/java/org/apache/iceberg/verification/Interpret.java:387-400 | Two runs that end under one schema, each shown under its own labels, show the same schema and bag of rows at latest if their labels are equal and they hold the same bag of records; and only then, where the cells of the first run's rows never collide |
| Predicates.AcceptanceExact | runners/go/interpret.go:310-368 | For any library cast that resolves each literal as Java does up to trailing zeros: Go accepts a predicate iff Java does and it has two args under every and/or and no scalar spelled null |
| Predicates.LoweringPreservesMeaning | runners/go/interpret.go:310-368 | The lowered expression and the matcher agree for every predicate tree on every record whose compared columns are present, or under Java's null policy, if its in-lists read the same there |
| PredicateMeaning.ComparisonMeans | runners/java/src/main/java/org/apache/iceberg/verification/PredicateMatcher.java:53-79 | For each of the six words, against a written integer, number, text or boolean its column can read: the matcher matches iff the column is not null and its value is less than, equal to or greater than the literal as the word says, integers by their order, decimals and floats by cross-multiplied value, strings by the first differing character, false before true |
| PredicateMeaning.LoweredComparisonMeans | runners/go/interpret.go:310-368 | The lowered expression says the same of every record that has the column |
| PredicateMeaning.SetTestMeans | runners/java/src/main/java/org/apache/iceberg/verification/PredicateMatcher.java:80-92 | A set test matches iff the column's value is one of those written, decimals with their scale; the negated one iff not, nulls included |
| PredicateMeaning.WordsMean | runners/java/src/main/java/org/apache/iceberg/verification/PredicateMatcher.java:41-106 | True, false, null tests, and, or and not mean what they say of every record |
| PredicateMeaning.IntegersInRange | runners/java/src/main/java/org/apache/iceberg/verification/TypedValue.java:100-130 | A comparison with an integer is accepted iff the integer has 32 bits for an int column and 64 for a long one |
| PredicateMeaning.NormalizeKeepsValue | runners/java/src/main/java/org/apache/iceberg/verification/TypedValue.java:100-130 | Dropping the idle zeros of a decimal keeps its value |
| LoweringLaws.LoweringOnRecords | runners/go/interpret.go:310-368 | On every record a file can hold the two agree, with no condition on in-lists but this: a decimal list that holds a value of the column under another scale holds it at the column's scale too |
| LoweringLaws.SetTestExactly | runners/java/src/main/java/org/apache/iceberg/verification/PredicateMatcher.java:80-92 | For in and not-in that condition on the authored literals is exact: the two readings agree on all such records iff the list meets it |
| LoweringLaws.DecimalListExact | runners/java/src/main/java/org/apache/iceberg/verification/PredicateMatcher.java:80-92 | Comparing by value and by equality find the same column values in a decimal list iff every literal the column can hold is listed at its scale |
| LoweringLaws.CompareTells | runners/java/src/main/java/org/apache/iceberg/verification/PredicateMatcher.java:80-110 | For booleans, ints, longs, floats, doubles and strings compareTo is 0 iff equals holds |
| LoweringLaws.GoDeleteAgrees | runners/java/src/main/java/org/apache/iceberg/verification/PositionDeletes.java:60-124 | In every reached state a delete by the lowered predicate keeps exactly the rows a delete by the matcher keeps |
| Predicates.NullPolicyExact | runners/java/src/main/java/org/apache/iceberg/verification/PredicateMatcher.java:38-110 | An evaluator's answers on nulls never part it from Java iff it answers false to comparisons and in, true to not-in |
| Predicates.DecimalInListDiverges | runners/go/interpret.go:310-368 | A stored 1.50 is in the list of the authored 1.5 as Go reads it, and not as Java does, whatever scale the library cast gives the literal |
| Predicates.FoldAndEval | runners/go/interpret.go:340-355 | Folding the rest of the args onto the first pair keeps the meaning of and |
| Predicates.FoldOrEval | runners/go/interpret.go:340-355 | Folding the rest of the args onto the first pair keeps the meaning of or |
| Predicates.TermListsAgree | runners/go/literals.go:57-131 | For any such cast literal lists are accepted by Go iff by Java and none is spelled null, and then they are position by position equal in order |
| Generator.Generate | orchestrator/generator/gen.go:80-152 | The log is a function of the choices, the one LogOf computes from them without any state: one seed, one log; it has max(count,1)+1 ops, each meaningful where it stands, final keys and types equal to an independent replay of the logged ops, and no promote from the seed schemas |
| Generator.Fill | orchestrator/generator/gen.go:106-151 | From any start schema with a required id column of any type: the ops as drawn are those the choices stand for and are meaningful, the finished log shows them with the tags the promotions wrote through the shared rows, and final keys and types are the replay of the finished log |
| Generator.DrawOps | orchestrator/generator/gen.go:106-136 | The first append and the loop: exactly max(count,1) ops, the ones OpsAt reads off the choices, in step with the state and with what their shared rows read |
| Generator.PromoteTurn | orchestrator/generator/gen.go:229-243 | A promote turn always yields a legal promotion; it writes through the logged rows that are still live and keeps the replay in step |
| Generator.NextOp | orchestrator/generator/gen.go:112-136 | Every turn of the loop logs an op: the two retries are unreachable |
| Generator.PickOp | orchestrator/generator/gen.go:156-165 | A delete is picked only with live rows, a promote only with a candidate column, both only when the features allow; which one is told by the next choice over that list |
| Generator.GenAppend | orchestrator/generator/gen.go:179-196 | One to three rows, keys from the counter on, every value fits its column; rows and values are those the choices stand for |
| Generator.GenDelete | orchestrator/generator/gen.go:200-226 | Gives up iff no row is live; otherwise the next choice tells the victim among the sorted keys, the delete hits it, and the keys removed are those a delete by value removes |
| Generator.IdTextIsValue | orchestrator/generator/gen.go:214-219 | Comparing ids as text is comparing them as values, integers and floating-point numbers as numbers |
| Generator.GenPromote | orchestrator/generator/gen.go:229-243 | Gives up iff no column is promotable; otherwise the promotion is legal and the one the next two choices tell |
| Generator.GenObserve | orchestrator/generator/gen.go:247-260 | Reads latest or a name bound before, a new bind name was never used, and the choices tell which |
| Generator.GenValue | orchestrator/generator/gen.go:264-293 | Every value is the one its choices stand for and fits the column type it was drawn for: integers inside 32 and 64 bits, floats and doubles the text of an eighth below 125 and of a 64th, decimals inside decimal(9,2) |
| Numerals.FractionParses | orchestrator/generator/gen.go:264-293 | The shortest text of k/8 or k/64 parses to exactly k/8 or k/64 |
| Numerals.FractionShortest | orchestrator/generator/gen.go:264-293 | That text has no leading or trailing zero to drop |
| Numerals.ShortestUnique | orchestrator/generator/gen.go:214-219 | Two such texts denote one value iff they are one text |
| Numerals.CentsParse | orchestrator/generator/gen.go:264-293 | The text of whole and two-digit cents parses to that number of cents at scale 2, inside decimal(9,2) |
| Generator.GenVals | orchestrator/generator/gen.go:186-193 | Required columns are present, the others are left out one time in four, nothing undeclared appears; the values are those the choices stand for |
| Generator.RandUuid | orchestrator/generator/gen.go:304-307 | 8-4-4-4-12 hexadecimal digits |
| GenLog.TypesListed | orchestrator/generator/gen.go:138-150 | The final types list exactly the columns, each under the type of its last field |
| GenLog.PromotionAccounting | orchestrator/generator/state.go:122-136 | In any meaningful log promotes so far plus columns still promotable is constant |
| GenLog.PromotedOnce | orchestrator/generator/state.go:122-136 | No two promotes of a meaningful log name the same column |
| GenLog.TagKeptExactly | orchestrator/generator/state.go:104-136 | A logged cell keeps the tag it was drawn with iff its column is not promoted while its row is live |
| GenLog.EmittedSameButTags | orchestrator/generator/state.go:122-136 | The write through the shared rows changes tags of logged cells and nothing else |
| GenLog.TagsDoNotReplay | orchestrator/generator/state.go:104-136 | Logs that differ in tags only have replays with the same schema, binds and keys, and rows that differ in tags only |
| Counterexamples.TagWrittenThrough | orchestrator/generator/state.go:104-136 | A meaningful append and promote after which the logged int cell no longer has the tag int |
| GenLog.LiveKeysDistinct | orchestrator/generator/gen.go:183-185 | Row keys of a meaningful log are distinct among its live rows |
| GenState.State.constructor | orchestrator/generator/state.go:68-80 | The seed schema and empty table |
| GenState.State.LiveRowKeys | orchestrator/generator/state.go:94-101 | In any map order: the keys of the live rows, sorted, each once |
| GenState.State.ApplyAppend | orchestrator/generator/state.go:104-109 | The rows join by key, later rows of a key winning; one more commit |
| GenState.State.ApplyDeleteKeys | orchestrator/generator/state.go:112-117 | Exactly the listed keys go; one more commit |
| GenState.State.ApplyPromote | orchestrator/generator/state.go:122-136 | In any map order the column is widened and the present cells of live rows are re-tagged in place, for every holder of the row; an unknown field changes nothing |
| GenState.WroteThrough | orchestrator/generator/state.go:104-136 | After that re-tagging the logged ops, which hold the same rows, read as the log with the promotion written through |
| GenState.State.HasPromotableColumn | orchestrator/generator/gen.go:168-175 | True iff some column can still be promoted |
| GenState.SortedKeysUnique | orchestrator/generator/state.go:94-101 | Any sorted listing of the state's keys is the sorted list of the replay's live keys |
| GenState.RowKeyFresh | orchestrator/generator/gen.go:183-185 | A printed row key was never used before |
| GenState.BindFresh | orchestrator/generator/gen.go:255-257 | A printed bind name was never used before and is not the word latest |
| GenState.WithoutKeysTracks | orchestrator/generator/gen.go:200-226 | Dropping the keys of the rows hit leaves the rows missed |
| Text.ItoaRoundTrip | orchestrator/generator/gen.go:184-184 | Printing an integer and parsing it gives the integer back |
| Text.ItoaInjective | orchestrator/generator/gen.go:184-184 | Two integers print alike iff they are equal |
| Text.StableSortCorrect | orchestrator/compare.go:80-87 | The stable sort is ordered, a permutation, and keeps rows of one key in their order |
| Text.SortedClassesUnique | orchestrator/compare.go:80-87 | Ordered lists with the same rows in the same order under each key are equal |
| Text.SortStringsCanonical | orchestrator/fuzz/readdiff.go:319-327 | Two lists sort to the same list iff they are the same bag |
| Compare.CompareOutput | orchestrator/compare.go:37-76 | No diff iff accept, the snapshot sequence and every pair of observations agree; and the diffs are exactly those members that differ, each under its path with the two values |
| Compare.CompareSnapshots | orchestrator/compare.go:44-53 | Adds no diff iff the two sequences are equal; otherwise exactly their lengths and the places where they differ |
| Compare.CompareObservation | orchestrator/compare.go:60-75 | Adds no diff iff schemas are equal and rows agree key by key, and otherwise exactly those of the two that differ; a pair that is not two objects is skipped |
| Compare.SortedRowsExact | orchestrator/compare.go:80-87 | The sorted rows are equal iff under every row key both sides hold the same rows in the same order |
| Compare.RowsAgreeExactly | orchestrator/compare.go:80-95 | When the rows of one key on the one side are the same row, the comparison is equality of row bags: row order is invisible |
| Compare.OrderBlindExactly | orchestrator/compare.go:80-95 | A list of rows agrees with every reordering of itself iff its rows of one key are the same row |
| Compare.RowsAgreeBags | orchestrator/compare.go:80-95 | Agreement always implies equal row bags |
| Compare.SharedKeyOrderVisible | orchestrator/compare.go:80-95 | Two different rows of one key, swapped, are reported as a difference although the bags are equal |
| Compare.CleanMeansSameBags | orchestrator/compare.go:37-76 | When rows of one key are one row in every observation of the output, a clean comparison is equality up to row order |
| JudgedDocuments.ComparedExactly | orchestrator/compare.go:37-95 | On the JSON itself: of two documents where the rows of each observation are objects with pairwise different members 0, nothing is reported iff both accept or both do not, the snapshots are equal, and each observation has an equal iceberg-schema and a permutation of the rows |
| JudgedDocuments.SwapReported | orchestrator/compare.go:80-95 | Two different rows with equal members 0, swapped, are reported |
| Documents.DocumentReads | runners/java/src/main/java/org/apache/iceberg/verification/Emit.java:36-133 | The emitted document, read back member by member, is the output it was written from |
| Documents.DocumentsCompared | orchestrator/compare.go:37-95 | Comparing the documents of two outputs is clean iff the snapshots are equal and each pair of observations has equal schemas and the same bag of rows, when no two different rows of an observation share their row key |
| Documents.ExecutionsCompareClean | runners/java/src/main/java/org/apache/iceberg/verification/Interpret.java:97-119 | Two executions of one log compare clean, in whatever order their scans gave the rows, when no observation shows two different rows under one row key |
| ReadDiff.DiffObservation | orchestrator/fuzz/readdiff.go:275-297 | Agreement iff both first observations exist, every golden column has its type in the other, and the row bags are equal; otherwise the first of these that fails is reported, with the column where it is a type |
| JudgedDocuments.ReadExactly | orchestrator/fuzz/readdiff.go:275-327 | On the JSON itself: agreement iff the last type written for each golden name is the last type written for it by the reader, and the rows are a permutation |
| ReadDiff.CanonRowsExact | orchestrator/fuzz/readdiff.go:319-327 | The canonical row lists are equal iff the row bags are, with no assumption on keys |
| ReadDiff.CanonRows | orchestrator/fuzz/readdiff.go:319-327 | The sorted encodings of the rows |
| ReadDiff.SchemaByName | orchestrator/fuzz/readdiff.go:308-317 | The column types by name, a repeated name keeping its last |
| ReadDiff.EqualStrings | orchestrator/fuzz/main.go:228-238 | True iff the lists are equal |
| ReadDiff.CleanCompareImpliesReadsAgree | orchestrator/fuzz/readdiff.go:275-297 | What the golden comparator calls clean, the read differ calls agreement |
| ReadDiff.ReadsAgreeImpliesRowsAgree | orchestrator/fuzz/readdiff.go:275-297 | The converse on the first observation's rows, when the reader's rows of one key are one row |
| ReadDiff.ExtraColumnUnseen | orchestrator/fuzz/readdiff.go:283-287 | A column the reader adds is not noticed, unless it retypes a golden name |
| Metamorphic.CheckSeed | orchestrator/fuzz/main.go:155-191 | The verdict as a function of exit code and output: accepted iff the last observation shows exactly the predicted keys, as a bag, and no predicted column has another type |
| Metamorphic.RowKeysOf | orchestrator/fuzz/main.go:195-205 | The row-key texts shown, in row order |
| Metamorphic.CheckTypes | orchestrator/fuzz/main.go:208-221 | Reports nothing iff every shown column that is predicted has the predicted type, and otherwise the first that has not |
| JudgedDocuments.TypesCheckedExactly | orchestrator/fuzz/main.go:208-221 | On the JSON itself: no complaint iff every field with the name of a predicted column, other than the row key, has its predicted type as its type member |
| JudgedDocuments.FinalCheckedExactly | orchestrator/fuzz/main.go:173-221 | On the JSON itself: the last observation is as predicted iff the texts in member value of member 0 are a permutation of the predicted keys and no named column has another type |
| Metamorphic.ExtraRowAccepted | orchestrator/fuzz/main.go:173-205 | An accepted output with one more row in its last observation stays accepted iff that row shows no key text |
| Shrink.Shrink | orchestrator/fuzz/shrink.go:96-118 | A subsequence of the input that diverges if the input did and from which no single op but a terminal observe can be removed; that observe survives; the test is called at most n(n+1)/2 times, n(n-1)/2 when the input ends in an observe; result and calls are those of always dropping the first op that can go |
| Shrink.ShrunkKeeps | orchestrator/fuzz/shrink.go:96-118 | The same promises, for every test, of the function that drops the first op that can go and begins again |
| Transpose.DecodeScanGo | runners/go/arrow_decode.go:53-101 | Succeeds iff column count, labels and all cells are good, and then the rows are the transposition of the columns, however each column is chunked; no index out of range |
| Transpose.DecodeScanRust | runners/rust/src/arrow_decode.rs:41-85 | The rows are the transposition of the joined batches; it fails only for a missing label, a wrong column count or a cell that does not decode |
| Transpose.DecodeBoth | runners/rust/src/arrow_decode.rs:41-85 | On one table, chunked per column and batched, both decoders fail or both give the same schema and rows |
| Transpose.CellShown | runners/go/arrow_decode.go:79-98 | With distinct labels cell (r, c) is the flat column's r-th value and is absent iff null |
| Transpose.RowOfSlice | runners/rust/src/arrow_decode.rs:41-85 | A batch's rows are the same rows of the joined table |
| Transpose.FillColumns | runners/go/arrow_decode.go:79-98 | Filling column after column yields the transposition, or the error of a cell that does not decode |
| Transpose.FillColumn | runners/go/arrow_decode.go:79-98 | All chunks of one column land at the running row base |
| Transpose.FillChunk | runners/go/arrow_decode.go:86-95 | One chunk extends the filled part of its column by its cells |
| Transpose.ShowSchema | runners/go/arrow_decode.go:59-71 | The schema is shown iff every column is labelled |
| Transpose.PositionsNeverCollide | runners/go/schema.go:64-76 | Columns with distinct names are all labelled and never share a positional label |
| Transpose.RowDecoderTransposes | runners/java/src/main/java/org/apache/iceberg/verification/Decode.java:52-63 | Java's record-by-record decoding is the transposition of the records' columns |
| Transpose.DecodeRecords | runners/go/arrow_decode.go:53-101 | However the columns of some records are chunked, Go decodes them to the schema and rows Java emits for those records |
| EndToEnd.FuzzSeed | orchestrator/fuzz/main.go:138-192 | For every choice stream, op count and format version: at 2 the generated log runs to exit code 0 and is accepted; below 2 it is called an invalid spec iff it holds a delete; above 2 it is never rejected, the exit code being 4 iff it holds a delete |
| Counterexamples.VersionOneAlarm | orchestrator/fuzz/main.go:95-95 | A meaningful append and delete whose run fails at version 1 |
| EndToEnd.LogFollows | runners/java/src/main/java/org/apache/iceberg/verification/Interpret.java:97-119 | A meaningful log that starts with an append, at version 2 or without a delete, runs to the end, its live records being those of the generator's replay at every op |
| EndToEnd.LogRefused | runners/java/src/main/java/org/apache/iceberg/verification/Interpret.java:255-274 | At any other version a meaningful log with a delete fails: unsupported from 3 on, a rejected commit below 2 |
| EndToEnd.SoundLogRuns | orchestrator/fuzz/main.go:138-157 | Which of the two a generated log does is told by its version and whether it holds a delete |
| EndToEnd.SoundLogAccepted | orchestrator/fuzz/main.go:173-191 | Any output that matches the logical run of a sound log passes the check |
| LoweredPromotions.PromotionFollows | runners/java/src/main/java/org/apache/iceberg/verification/Interpret.java:283-327 | From any run whose schema is the replay's, lowered: a meaningful promotion, lowered, is taken and leaves the schema of the replay |
| EndToEnd.DeleteAgrees | runners/java/src/main/java/org/apache/iceberg/verification/PredicateMatcher.java:38-78 | Deleting records by the compiled predicate is deleting logged rows by value |
| EndToEnd.RowsLower | runners/java/src/main/java/org/apache/iceberg/verification/Interpret.java:189-235 | The records of a lowered append are those of its rows, in order |

## Left out

- Interpret.Interpret.DoRewrite: the library's conflict validation on `rewriteFiles` is not part of this model, so a commit it would refuse is taken to succeed.
- Interpret.Interpret.DoEvolve: promote-type changes only; added, dropped, renamed columns and write defaults are the library's behaviour.
- Interpret.Interpret.DoObserve: `at` is latest, a bind or an ordinal; other forms of `at` are refused while parsing.
- Predicates.AcceptanceExact: a missing args, values or term entry is not part of the parsed predicate; Java's `in` list with a null raises only when a row reaches it and is modelled as refused at compile.
- Predicates.LoweringPreservesMeaning: how iceberg-go evaluates on nulls and how it casts a literal are library behaviour, so both are parameters; on which literals its parsing differs from Java's, type by type, is not part of this model.
- Interpret.Interpret.DoAppend: write defaults, which only an added column brings, are not part of this model.
- GoReads.GoBindStability: the history is the Java runner's and may hold rewrites; the Go runner has no rewrite and refuses such a log.
- GenLog.TagKeptExactly: column names of the start schema are distinct, as in both seed schemas; two columns of one name share a cell.
- Generator.Fill: column names and ids of the start schema are distinct, as in both seed schemas.
- Generator.GenValue: a fixed column other than fixed[4] and a decimal one other than decimal(9,2) are not checked against the column's parameters; the source draws the same text for every one of them.
- Generator.GenDelete: the loop over the keys is its own method, `SameIdKeys`.
- EndToEnd.FuzzSeed: the metamorphic feature set; the wide types the read differ adds are generated (`Generate`) but not run.
- GoReads.RunnersAgreeExactly: Go's observe on the history the Java runner reaches; Go's own append and delete steps are not run, and of its schema change only the schema it gives (`GoNames`), so its error for a schema change on a table without a snapshot and its whole-table delete shortcut are left out.
- Transpose.DecodeScanGo: cell decoders are a parameter, their rendering of each type is library formatting.
- Values.ParseNumeral: a plain decimal; the exponents that Java's float and decimal parsers accept, and the blanks, suffixes and named values its float parser accepts, are refused here.
- Documents.DocumentReads: the document's spec-id is not part of this model, and members are compared, not their order in the text.
- Column types date, time, timestamp, uuid, fixed, binary and nested ones have no values in the runner model; floats are exact numerals, without rounding or NaN.
- Duplicate or reserved field ids in a header, which the library may refuse, are run by name as any other ids.
- Format version 3 deletion vectors, equality deletes and copy-on-write: declared unsupported or library behaviour.
- Catalogs, Parquet and Avro files, YAML and JSON text, process spawning, minting of read fixtures, the reports and the site.
- Delete files that no longer apply to any data file stay listed, where the library may drop them at a later commit: this bears on the delete-file count of later summaries, not on any row.
- Snapshot summaries are the counts the library writes, zero counts omitted; the table's internal field ids and the clock in file names are not part of this model.
