# Packfs: placement, parity, recovery and packing

Packfs packs the files of a dataset into shards, places the shards of many datasets into the capacity-limited
partitions of an arcset, adds Reed-Solomon parity to every stripe of `k` data and `m` parity positions, and brings
lost shards back. This project models those steps in Dafny and proves what they promise.

`dafny verify dfyconfig.toml` checks everything.

## How the model is built

The mutable objects of the program are classes: `ShardTable.Store` (the shard table with its unique indexes, one atomic
step per store call), `Disk.Disk` (the file tree), `Arcset.Registry` (arcsets and dataset registrations) and
`Placement.PlacementState` (the placement cache, whose maps and lists share row objects that are changed in place). The
loops of the program are methods with loops. Each is proved equal to, or bounded by, a specification on values, and the
large theorems are about those specifications:

| layer | modules |
|---|---|
| bytes, names, layout | `Bytes`, `Paths`, `CleanPath`, `TreePaths`, `Disk`, `Layout`, `EcNames` |
| erasure code and its three chunked operations | `ColumnCode`, `PairCode`, `StripeBytes`, `Stream`, `StripeMemory` |
| placement and build-data | `ShardTable`, `SlotChoice`, `MoveFile`, `Placement`, `BuildSpec`, `PlacedSizes`, `BuildData`, `StoredPaths`, `BuildRetry`, `BuildCommand`, `DegradedFlag`, `SortShards` |
| make-ec, sequential, parallel and interrupted | `StripeTask`, `StripeRun`, `MakeEc`, `Locality`, `Schedule`, `BuildStripes`, `Resume`, `MakeEcRun`, `SelectedStripes`, `MakeEcKeeps`, `MakeEcRetry`, `CompleteStripes`, `Freshness` |
| recover, validate, whole lives | `StripeView`, `Recover`, `LossTolerance`, `PartitionLoss`, `Validate`, `Arcset`, `Lifecycle`, `TrueRecords`, `Capacity`, `Durability`, `SampleLives` |
| packing and reading datasets | `GenDef`, `BinShard`, `FuseRead` |

The Reed-Solomon library, the compressors and SHA-256 are parameters. The code is a function on byte columns with a
maximum-distance property (`ColumnCode.Code.Lawful`); `PairCode` shows a code with two data and two parity symbols that
has it. A compressor has to be inverted by its decompressor. A checksum is any function of the bytes.

`Lifecycle` composes the parts: a life is any sequence of append, build-data, make-ec, validate, expand and recover, with
parity or without, where build-data may be killed between any two of its steps, make-ec may run its stripes in any
interleaving and stop anywhere, recover may stop between any two of its renames, and up to `m` partitions of every group
may be lost with their directories and recovered. Nobody else touches the files. `TrueRecords` adds what honest catalogs
give: when the checksums that build-data is told are those of the files and identify contents of the recorded size, every
state of the life has true sizes and checksums, so that the durability results hold of the commands alone. `SampleLives`
has lives that end where the program does less than one might expect.

A file of the arcset's tree is a value (`Paths.Path`): its partition, its stripe and what follows in its name. The program
stores the joined and cleaned path instead. `TreePaths` proves that the two are the same thing as long as the key of a
dataset has no slash (`TreePaths.LocatedInjective`, `TreePaths.LiesInOwn`), and what happens otherwise. So the model places
only datasets whose keys have no slash; registering takes any key.

## What the proofs found

- A placement can be retried after a crash at any point, under both layouts: rows, files and outcome are those of a run
  that was not killed. The freed space of deleted parity rows never changes the slot, because only the last stripe of a
  group has free positions (`BuildSpec.OpensAfterFull`), and within one stripe the partitions differ. The retry gives the
  same result exactly when the size was recorded (or is 0) and the bytes at the target have the recorded checksum
  (`BuildRetry.RetryAfterMove`): with a recorded size of 0 the size is read from the source file
  (`PlacedSizes.UnrecordedIsRead`), which is gone after the move, so that the retry records 0
  (`SampleLives.RetryLosesSize`).
- Nothing checks the key of a dataset, and the path of a shard is cleaned after the key has been put into it. A shard is in
  its partition's directory if and only if the key has no slash (`TreePaths.ShardInPlaceExactly`). With the keys
  `a/../../01/000D-b` and `b` two shards of different partitions have one path (`TreePaths.TwoShardsOnePath`); with the key
  `a/../../01/x` the shards of all partitions are in the directory of partition 1 (`TreePaths.AllInOneDirectory`), so that
  its loss takes every shard of the dataset along.
- The `parity_degraded` mark does not follow a retry. build-data deletes stale parity rows one by one and sets the mark at
  the end of a run that goes through. The mark is true after a run exactly when it was set before, or all wanted shards can
  be placed, or no shard placed before the failure makes parity stale (`DegradedFlag.MarkIsTrueExactly`;
  `SampleLives.HalfFailedRun` is a life that ends where it is wrong). A run after kills does not see what the killed runs
  deleted: its mark agrees with that of an uninterrupted run exactly when the mark was set before, or the run cannot go
  through, or nothing was lost before the last kill, or something is lost again after it (`DegradedFlag.RerunExactly`,
  `SampleLives.KilledRun`).
- build-data with one dataset chosen needs a shard that is new: a registered dataset that is fully placed is refused as
  "not registered" (`BuildCommand.SucceedsExactly`, `SampleLives.RegisteredButRefused`). So a run that was killed after its
  last shard was placed reports an error when it is given again, though rows and files are complete
  (`DegradedFlag.RerunExactly`).
- make-ec rejects a stripe exactly when a data file is missing or bytes past its recorded size show in the parity
  (`Resume.BuildOneEnds`).
- A stripe whose DATA shards are all empty is built without complaint, but validate never accepts it and recover never
  begins on it (`Durability.ValidatesExactly`, `Durability.RecoverBeginsExactly`; `SampleLives.EmptyShardIsNotRecovered`
  is a life that completes with such a stripe). So after losing partitions, recovering a shard of every stripe of a
  completed arcset succeeds exactly when every stripe has some data (`Durability.CompletedSurvives`).
- A lost file comes back byte for byte exactly when its length was the recorded one, cut to the padded size for data, or
  the padded size for parity (`PartitionLoss.RestoredExactly`).
- A key column that mixes numbers and other strings can be cyclic (2 before 10 before 1a before 2); the column is
  transitive exactly when no other string lies between two numbers of the opposite order (`SortShards.TransitiveExactly`).
- A file that was cut into several segments is not packed right: every segment is read from the start of the file.
  Unpacking gives a file back exactly when the last segment that goes to its place is the whole file
  (`BinShard.PackUnpack`), and a mounted file
  reads like its source exactly when every piece repeats the beginning of the file (`FuseRead.CutFileReadsExactly`; the
  bytes 1, 2 read as 1, 1 in `FuseRead.CutFileReadsWrong`).
- Unpacking below the root directory `/` refuses every file, because its prefix test looks for two slashes
  (`CleanPath.SafeJoinExactly`).

Where the code does less than its documentation says, the model follows the code: append does not check that a key has only
letters, digits and underscores (section 3 of `docs/design/arcset-lifecycle.md`), make-ec checks neither the capacity of
parity partitions (section 5.2.5 of `docs/design.md`) nor that all registered shards are placed, nothing checks the width
of stripe numbers, and a PAD that does not fit a shard is passed over rather than reported.

## Model

| member | source | states |
|---|---|---|
| Layout.PartitionRoundTrip | internal/builddata/build.go:358-363 | for each stripe, position to partition has an inverse and stays in the group, in both layouts |
| Layout.PosRoundTrip | internal/recoverec/recover.go:220-225 | conversely every partition of a group has exactly one position of the stripe |
| Layout.PartitionInjective | internal/db/postgres_schema.sql:73-78 | two positions share a partition at one stripe number only if they are the same position of the same group |
| Layout.NextStripeShares | internal/builddata/build.go:358-363 | a position after the first shares its partition with a data position of the next stripe |
| Layout.NextPartition | internal/builddata/build.go:358-363 | in stripe 0 position p is in partition p of the group; from one stripe to the next the fixed layout stays, the rotating one goes on by one partition, after the last to the first |
| Layout.Raid3SeparatesParity | internal/makeec/makeec.go:379-384 | under raid3 data and parity never share a partition |
| Layout.Raid5SpreadsParity | internal/makeec/makeec.go:379-384 | under raid5 any k+m consecutive stripes put exactly m parity positions on each partition of the group |
| Paths.PrintInjective | internal/makeec/makeec.go:236-248 | before cleaning, what is printed determines partition, stripe and kind of the file, whatever the widths |
| Paths.PrintedNames | internal/makeec/makeec.go:236-248 | how the data, parity and PAD file of a stripe are named |
| TreePaths.InPlaceExactly | internal/builddata/build.go:301-305 | for every name: a file's cleaned path is its partition's directory and its own name if and only if the name has no slash |
| TreePaths.ShardInPlaceExactly | internal/builddata/build.go:301-305 | for every key: a shard is in its partition's directory under its own name if and only if the key has no slash |
| TreePaths.LocatedInjective | internal/db/postgres_schema.sql:73-80 | the files of the model have one cleaned path if and only if they are one file, so that the path index speaks of them |
| TreePaths.LiesInOwn | internal/builddata/build.go:301-305 | the directory of a partition holds exactly the files of that partition |
| TreePaths.KeyLeadsOut | internal/arcsetops/append.go:59-78 | keys for which neither partition nor stripe plays a part in where a shard goes |
| TreePaths.TwoShardsOnePath | internal/builddata/build.go:301-305 | two keys with which shards of different partitions have one path |
| TreePaths.AllInOneDirectory | internal/builddata/build.go:301-305 | a key with which the shards of all partitions and stripes are in one directory |
| StoredPaths.TargetIsRelPath | internal/builddata/build.go:301-305 | the target of a placement is the path that is joined and cleaned from partition, stripe, key and base name |
| ColumnCode.DecodeRestores | internal/ec/decode.go:136-162 | with at most m erasures a column's data comes back |
| PairCode.PairIsLawful | internal/ec/ec.go:61-78 | a 2+2 code over the four-element field has the maximum-distance property, so the assumption can be met |
| Bytes.MaxOfIsMaximum | internal/ec/stream.go:51-56 | the padded size is the largest data size |
| Stream.EncodeBuffers | internal/ec/stream.go:126-131 | the library call fills the parity buffers with the parity of every column and leaves the data |
| Stream.ReadData | internal/ec/stream.go:110-125 | one chunk of each file, zero past its recorded size, past its end and for a missing position |
| Stream.OnlyRecordedCounts | internal/ec/stream.go:110-125 | a byte of a data file counts exactly when it lies within the recorded size; every other one is zero |
| Stream.AppendParity | internal/ec/stream.go:132-136 | appending chunk parity extends the parity file to the parity of the longer prefix |
| Stream.EncodeStripeStreaming | internal/ec/stream.go:39-152 | fails exactly on a bad shape, chunk size or missing data file; else, for every chunk size, writes parity files of the padded size whose byte x is the parity of column x of the zero-padded data |
| Stream.VerifyStripeStreaming | internal/ec/stream.go:155-207 | for every chunk size true exactly when every byte column up to the padded size is a codeword; which calls fail |
| Stream.VerifyBuffers | internal/ec/stream.go:185-205 | the library check is true exactly when all columns are codewords |
| Stream.ReconstructBuffers | internal/ec/stream.go:305-307 | the library call keeps the buffers there are and fills the erased ones |
| Stream.RecoveredAppend | internal/ec/stream.go:308-319 | truncating each chunk at the original size truncates their concatenation there |
| Stream.RecoverChunk | internal/ec/stream.go:289-320 | one chunk extends every wanted file to the recovered prefix |
| Stream.ReconstructStripeStreaming | internal/ec/stream.go:213-338 | fails exactly on bad arguments, fewer than k files or a missing path; else exactly the missing wanted files are written, data cut to original size, parity whole |
| StripeBytes.EncodedIsConsistent | internal/ec/stream.go:104-137 | encoding makes every column a codeword, so verification after encoding succeeds |
| StripeBytes.ConsistentIsEncoded | internal/ec/stream.go:185-205 | conversely the parity of a consistent stripe is the encoding of its data |
| StripeBytes.RebuildRestores | internal/ec/stream.go:288-320 | with at least k survivors of a consistent stripe each file comes back, zero-padded |
| StripeMemory.EncodeBytes | internal/ec/encode.go:186-229 | the in-memory encoder gives original sizes, padded size and the parity of every column; fails exactly on a wrong shard count |
| StripeMemory.ChunkedEncodesWhole | internal/ec/encode.go:186-229 | with true sizes, missing positions included, the streaming encoder writes the same parity files as the in-memory one |
| StripeMemory.ReconstructBytes | internal/ec/decode.go:136-162 | succeeds exactly on k+m shards of which at least k are not empty and those have one length; keeps them and rebuilds the erased and empty ones |
| StripeMemory.ReconstructsExactly | internal/ec/decode.go:136-162 | which shards can be reconstructed: at least k are not empty and no two of those differ in length |
| StripeMemory.TrimData | internal/ec/decode.go:121-127 | cuts each data shard to its size in place and leaves the others |
| StripeMemory.ReconstructStripe | internal/ec/decode.go:23-83 | for any files and sizes: fails, changing nothing, exactly on a bad configuration or shards the library refuses; else writes exactly the missing files, rebuilt and cut |
| StripeMemory.WholeIsChunked | internal/ec/decode.go:23-83 | on files of the lengths encoding leaves: it has what it needs exactly when k files are left and the padded size is not 0; both repairs succeed on the same stripes when also every missing file has a path; and what it writes is what the streaming repair with target all writes |
| StripeMemory.VerifyStripe | internal/ec/decode.go:90-117 | fails exactly on a bad configuration, a missing file, an empty stripe or a parity file shorter than the longest file; else true exactly when every column of the padded files is a codeword |
| ShardTable.InsertExactly | internal/db/postgres_schema.sql:73-80 | an insert is refused exactly when the key is taken or the new table would break a unique index |
| ShardTable.UniqueExactly | internal/db/postgres_schema.sql:73-80 | what the unique indexes say, index by index: file, partition at one stripe number, shard of a dataset |
| ShardTable.UsedIsSum | internal/builddata/build.go:203-207 | the space used in a partition is the sum of the sizes of its rows, DATA, EC and PAD alike |
| ShardTable.UpdateExactly | internal/arcset/store_pg_shard.go:94-108 | a row is replaced exactly when the new table keeps the unique indexes |
| ShardTable.DropsExactly | internal/arcset/store_pg_shard.go:118-126 | what is left is the largest part of the table without EC rows in the stripe, and keeps the unique indexes |
| ShardTable.DataOnlyExactly | internal/arcset/store_pg_shard.go:137-145 | what is left is the largest part of the table with only DATA rows in the stripe, and keeps the unique indexes |
| ShardTable.RestampedKeeps | internal/arcset/store_pg_shard.go:147-155 | setting metadata breaks and mends no unique index, takes no space in any partition, and changes nothing else of any row |
| SlotChoice.ChoiceUnique | internal/builddata/build.go:257-281 | the first-fit rule never allows two slots |
| SlotChoice.ChoiceExists | internal/builddata/build.go:327-356 | the rule always decides, for a slot or for none |
| SlotChoice.FirstFit | internal/builddata/build.go:257-281 | the slot: the first PAD with room in order of group, stripe and position, else the first free position with room of a stripe that has begun, else position 0 of the next stripe of the first group whose k data partitions all have room, else none |
| SlotChoice.ChosenFits | internal/builddata/build.go:257-281 | a chosen slot is a data position with room, free or a PAD |
| SlotChoice.NoChoice | internal/builddata/build.go:274-279 | there is no slot exactly when no PAD fits, no hole fits and no group can open a stripe |
| MoveFile.Move | internal/builddata/build.go:471-514 | when the move succeeds and what it leaves; a failed move changes nothing |
| MoveFile.MoveDelivers | internal/builddata/build.go:471-514 | the bytes arrive and no other file changes, exactly when source and target differ |
| MoveFile.MovesExactly | internal/builddata/build.go:471-514 | a move succeeds exactly when the target is there with the checksum, or the source is there and is renamed or, copied to another device, has the checksum; an empty checksum is not compared |
| Placement.TargetDiffers | internal/builddata/build.go:301-307 | which they always do: a shard's target has a longer base name than the shard |
| MoveFile.MoveAgain | internal/builddata/build.go:476-488 | moving again what was moved or copied changes nothing more |
| Placement.RebuiltUnique | internal/builddata/build.go:203-231 | the table determines the cache: two caches over one table agree on every query |
| Placement.PlacementState.Load | internal/builddata/build.go:203-231 | loading rows in any order gives the cache of the table, PADs sorted |
| Placement.PlacementState.HasData | internal/builddata/build.go:237-240 | true exactly when the table has the shard |
| Placement.PlacementState.FindNewSlot | internal/builddata/build.go:327-356 | finds the first fitting hole of a started stripe, else position 0 of the first group that can open one |
| Placement.PlacementState.FindPad | internal/builddata/build.go:257-273 | finds the first fitting PAD in order of group, stripe and position, or none |
| Placement.PlacementState.Place | internal/builddata/build.go:242-325 | reads the size of the file when none is recorded (PlacedSizes says what that means), takes the slot of the rule, drops exactly the parity rows it makes stale, moves the file and fills in the shared row; fails exactly without slot or move |
| PlacedSizes.UnrecordedIsRead | internal/builddata/build.go:245-250 | a shard without a recorded size is placed exactly like one whose recorded size is the length of its file |
| PlacedSizes.RecordedIsTaken | internal/builddata/build.go:245-250 | a recorded size becomes the size of the row, whatever the length of the file |
| PlacedSizes.RowHasLength | internal/builddata/build.go:245-324 | when the recorded size is missing or right and no file was in the way, the row records the length of the file that is at its path afterwards |
| PlacedSizes.TooLongIsRefused | internal/builddata/build.go:274-279 | a shard that is longer than the room at every data position, by its recorded size or else by its file, is refused and changes nothing |
| Placement.PlacementState.Commit | internal/builddata/build.go:365-379 | after the row is stored the cache is that of the new table, although the row was changed in place before |
| BuildData.ListShards | internal/arcset/store_pg_shard.go:57-73 | lists each row once |
| BuildData.PlaceOne | internal/builddata/build.go:116-138 | one iteration: table, files and outcome are those of the specification, and the cache does not drift |
| BuildData.BuildDataset | internal/builddata/build.go:80-142 | the loop: table, files, number placed and degraded flag are those of the specification, and the cache mirrors the table afterwards |
| BuildSpec.StopsAtFailure | internal/builddata/build.go:116-140 | the first shard that cannot be placed ends the run; those before it have been placed |
| BuildSpec.PlacedRowsDiffer | internal/db/postgres_schema.sql:73-78 | rows in their places never clash on file or on partition and stripe, across DATA, EC and PAD |
| StoredPaths.PlacedRowsApart | internal/db/postgres_schema.sql:73-80 | nor on the path that is stored for the file |
| BuildSpec.OpensAfterFull | internal/builddata/build.go:327-356 | a stripe is opened only when all earlier stripes of the group are full of DATA |
| BuildSpec.SlotIsLast | internal/builddata/build.go:257-281 | a chosen slot is in the last stripe of its group or opens the next |
| BuildSpec.FilledWellPlaced | internal/builddata/build.go:283-324 | a placement keeps every row in its place, sources unique and earlier stripes full |
| BuildSpec.FilledNeverConflicts | internal/db/postgres_schema.sql:73-80 | no unique index ever rejects a placement |
| StoredPaths.PlacementFindsPathFree | internal/db/postgres_schema.sql:73-80 | nor is the stored path of the new row that of any other row |
| BuildSpec.FilledWithinCapacity | internal/builddata/build.go:365-379 | the receiving partition ends within capacity, no other one grows |
| BuildSpec.PlacementsAddRows | internal/builddata/build.go:116-140 | each placement adds one DATA row; none is changed or lost |
| BuildSpec.DegradesIsLoss | internal/builddata/build.go:283-299 | the degraded mark is set exactly when parity rows are gone afterwards; parity rows are never added |
| BuildSpec.BuildWellPlaced | internal/builddata/build.go:116-140 | any run of placements keeps the table well placed |
| BuildRetry.RetryAfterMove | internal/builddata/build.go:246-251 | retrying after the move gives the uninterrupted result if and only if the size was recorded or is 0 and the target has the recorded checksum |
| SampleLives.RetryLosesSize | internal/builddata/build.go:246-251 | a life in which a shard without a recorded size is killed after the move and built again: size 0 is recorded for a file of one byte, for which building at once records 1 |
| BuildRetry.RetryAfterCopy | internal/builddata/build.go:495-514 | retrying after the copy of a cross-device move gives the uninterrupted result |
| BuildRetry.ChoiceAfterDrop | internal/builddata/build.go:283-299 | deleting the parity rows a placement makes stale does not change its slot, in both layouts |
| BuildRetry.RetryAfterDrop | internal/builddata/build.go:124-129 | retrying after the deletion of parity rows gives the uninterrupted result under the same condition as after the move |
| BuildRetry.RetryConverges | internal/builddata/build.go:116-140 | for one list of shards: interrupting a run at any step of any shard and rerunning it gives the same rows, files and outcome; DegradedFlag.RerunExactly is about the command |
| BuildRetry.RetriesConverge | internal/builddata/build.go:116-140 | so it is for any number of interruptions of one list |
| BuildCommand.BuildAllIsBuild | internal/builddata/build.go:56-69 | building dataset by dataset is building one list, that of all wanted shards up to a dataset that cannot be opened; the run goes through exactly when the list does and there is no such dataset |
| BuildCommand.BuildDatasets | internal/builddata/build.go:56-69 | outcome, count of placed shards and degraded flag over all chosen datasets |
| BuildCommand.Run | internal/builddata/build.go:30-78 | when the command succeeds, unknown arcsets included, what it builds and counts, and when it marks parity degraded |
| BuildCommand.SucceedsExactly | internal/builddata/build.go:30-78 | with and without a filter: the command begins if and only if the arcset is building/data with health ok; it then succeeds if and only if all wanted datasets can be opened, all their shards placed and, with a dataset chosen, one of its shards is new; what it leaves either way |
| BuildCommand.PlacesChosen | internal/builddata/build.go:56-69 | every new row is that of a shard of a chosen dataset, with its recorded size and checksum, under the key the dataset is registered with, and after a success every shard of every chosen dataset is placed |
| BuildCommand.PlacedDatasetFails | internal/builddata/build.go:70-72 | choosing a dataset whose shards are all placed changes nothing and fails |
| DegradedFlag.MarkAfterRun | internal/builddata/build.go:62-77 | the mark after a run is set if and only if it was set before or the run goes through and makes parity stale; parity is lost exactly when a placement makes it stale |
| DegradedFlag.MarkIsTrueExactly | internal/builddata/build.go:62-77 | after a run the mark tells whether parity was lost if and only if it was set before, everything wanted can be placed, or no placement before the failure makes parity stale |
| DegradedFlag.DropIsForgotten | internal/builddata/build.go:124-129 | placing a shard again after a kill past the deletion ends alike but finds nothing to delete |
| DegradedFlag.LossUpToKill | internal/builddata/build.go:116-137 | parity is lost at a kill if and only if a placement before it, or the killed one past its deletion, made it stale |
| DegradedFlag.RerunExactly | internal/builddata/build.go:30-78 | the command killed any number of times and given again: always the same rows and files; the same outcome if and only if no dataset is chosen, or not everything can be placed, or the kills left a shard to place; the same mark if and only if it was set before, not everything can be placed, nothing was lost before the last kill, or something is lost after it |
| SampleLives.RegisteredButRefused | internal/builddata/build.go:70-72 | a life at whose end a registered and placed dataset is refused |
| SampleLives.HalfFailedRun | internal/builddata/build.go:283-299 | a life over honest catalogs whose last run fails: parity rows are gone and the mark is not set |
| SampleLives.KilledRun | internal/builddata/build.go:124-129 | a life over honest catalogs in which a run is killed and the next one goes through: parity rows are gone and the mark is not set |
| MakeEc.EncodeSteps | internal/makeec/makeec.go:251-254 | the renames of the encoder are the first steps of the stripe |
| MakeEc.BuildStripe | internal/makeec/makeec.go:224-356 | encoding, padding, verifying and rewriting rows are the steps of the stripe in order, stopping at the first failure |
| StripeRun.StepAchieves | internal/makeec/makeec.go:251-354 | what holds after each step; only missing data and failed verification can stop a stripe |
| StripeRun.InsertNeverConflicts | internal/makeec/makeec.go:310-354 | no unique index rejects the PAD and EC rows |
| StripeRun.ProgramBuilds | internal/makeec/makeec.go:224-356 | a stripe that gets to its end has a row and file at each position, stamped sizes, and codewords in every column |
| Locality.StepLocal | internal/makeec/makeec.go:105-106 | a step reads and writes only its stripe's rows and files |
| Locality.StepKeepsReady | internal/makeec/makeec.go:296-308 | no step of one stripe makes the data rows read for another outdated |
| Schedule.RunsLocally | internal/makeec/makeec.go:122-137 | in any interleaving a stripe's state depends only on how many of its steps were taken |
| Schedule.AloneIsRun | internal/makeec/makeec.go:224-356 | taking turns alone is running the steps in order |
| Schedule.ScheduleIndependence | internal/makeec/makeec.go:107-144 | any two complete interleavings end with the same rows, files and failures |
| BuildStripes.BuildInOrder | internal/makeec/makeec.go:115-122 | one worker builds the stripes in order, stopping at the first failure |
| BuildStripes.InOrderLocal | internal/makeec/makeec.go:115-122 | the run succeeds exactly when each stripe succeeds alone, and leaves each as built alone |
| BuildStripes.ParallelIsSequential | internal/makeec/makeec.go:107-144 | for any number of workers and any interleaving the run fails when the sequential one does and else gives its rows and files |
| BuildStripes.InOrderIsASchedule | internal/makeec/makeec.go:115-122 | the sequential run, failed or not, is one of the interleavings |
| Resume.FreshVerifies | internal/makeec/makeec.go:269-292 | verification of fresh files accepts exactly when bytes past the recorded sizes do not show in the parity |
| Resume.BuildOneEnds | internal/makeec/makeec.go:224-356 | a stripe builds if and only if its data files are there and bytes past their sizes do not show; how it ends otherwise |
| Resume.TruthfulBuilds | internal/makeec/makeec.go:269-292 | it builds when no data file is longer than recorded |
| Resume.InterruptedBuild | internal/makeec/makeec.go:224-356 | building again after stopping at any step ends like an uninterrupted build |
| Resume.BuiltTwice | internal/makeec/makeec.go:293-356 | building a built stripe again changes nothing |
| Resume.InterruptedRun | internal/makeec/makeec.go:107-144 | rerunning the stripes of a parallel run that was stopped anywhere ends like an uninterrupted run |
| MakeEcRun.GroupStripes | internal/makeec/makeec.go:206-222 | exactly the DATA rows of data positions, by stripe and position |
| MakeEcRun.SelectStripes | internal/makeec/makeec.go:75-92 | the selected stripes in ascending order, each as the table describes it; SelectedStripes.PlannedExactly says which they are |
| SelectedStripes.PlannedExactly | internal/makeec/makeec.go:74-82 | the stripes that are built are those with DATA rows, of the given group and of the given stripe number |
| MakeEcRun.Run | internal/makeec/makeec.go:29-103 | with parity and without: refuses unknown arcsets and bad chunk sizes; else rows, files, outcome, phase and status are those of SelectedStripes.OutcomeExactly or MakeEcRun.CompletesExactly |
| SelectedStripes.OutcomeExactly | internal/makeec/makeec.go:44-102 | the command begins exactly on building/data or building/ec with health ok and some DATA; fails with no matching stripes exactly when no DATA row has the given group and stripe; and what it records: building/ec, and completed after an unfiltered success only |
| SelectedStripes.AskedForIsSolid | internal/makeec/makeec.go:74-102 | after a success every stripe with DATA whose group and number are the given ones has its k+m positions and codewords in every column |
| SelectedStripes.AskedForIsStamped | internal/makeec/makeec.go:296-356 | and its rows: DATA rows are kept, PAD and EC rows fill the other positions, all record the largest DATA size as padded size and each DATA row its own as original size |
| SelectedStripes.OthersUntouched | internal/makeec/makeec.go:75-84 | succeeding or failing, the command leaves every row and file of a stripe of another group, or with another number, as it was |
| SelectedStripes.FailsAtFirst | internal/makeec/makeec.go:115-122 | one worker fails at one stripe that was asked for: those before it that were asked for are solid, those after it are untouched |
| MakeEcRun.RunWithoutParity | internal/makeec/makeec.go:56-61 | without parity rows and files stay as they are and the arcset completes on success only; MakeEcRun.CompletesExactly says when |
| MakeEcRun.CompletesExactly | internal/makeec/makeec.go:358-377 | without parity the arcset completes exactly on building/data or building/ec with health ok and every DATA file there with the recorded checksum, and with that the mark of degraded parity is taken back |
| MakeEcKeeps.RunsKeepRow | internal/makeec/makeec.go:293-354 | wherever make-ec stops, DATA rows are the same shards and rows keep their files |
| MakeEcKeeps.RunsKeepFile | internal/makeec/makeec.go:236-267 | make-ec deletes no file and writes only parity and PAD files |
| MakeEcKeeps.MakeEcKeepsPlaces | internal/makeec/makeec.go:310-354 | wherever make-ec stops the table is well placed |
| MakeEcRetry.PlansFoundAgain | internal/makeec/makeec.go:63-92 | wherever make-ec stops, the next one finds the same stripes with the same DATA rows in the table |
| MakeEcRetry.MakeEcAgain | internal/makeec/makeec.go:44-103 | the command stopped any number of times, anywhere, and given again succeeds if and only if it would have at once, and then leaves the same rows, files and arcset |
| CompleteStripes.CompletedIsSolid | internal/makeec/makeec.go:94-101 | after an unfiltered success each stripe has exactly positions 0..k+m-1 and codewords in every column |
| CompleteStripes.CompletedIsWhole | internal/makeec/makeec.go:94-101 | with true recorded sizes all files also have their recorded lengths |
| Freshness.MakeEcKeepsFresh | internal/makeec/makeec.go:251-354 | at every step of any interleaving each EC row's file is the encoding of the DATA rows then in its stripe |
| Freshness.PlacementKeepsFresh | internal/builddata/build.go:124-137 | so it is between any two steps of a placement: stale parity rows go before the new DATA row comes |
| Freshness.BuildKeepsFresh | internal/builddata/build.go:116-140 | so it is after any run of placements |
| Durability.ParityRecordsStayTrue | internal/makeec/makeec.go:333-349 | over every life each EC row has its file, of the recorded size and checksum |
| Arcset.Registry.AppendDataset | internal/arcset/store_pg.go:172-261 | when a registration succeeds, its next append order, the return to building/data, that registering again changes only name and path of the dataset, and a refused registration nothing |
| Lifecycle.RegistrationAppends | internal/arcset/store_pg.go:197-256 | what a registration does to an arcset and its listing is the append of a life |
| Arcset.Registry.FindRelation | internal/arcset/store_pg.go:213-237 | finds the dataset's registration and one more than the largest append order |
| Arcset.Registry.Create | internal/arcsetops/create.go:36-113 | when an arcset can be created, and that every arcset of the registry stays one that could be created |
| Arcset.Registry.Expand | internal/arcsetops/expand.go:22-90 | when groups can be added: health, code, directory width and 64-bit capacities; only the number of groups changes |
| Arcset.CapacityCheck | internal/arcsetops/expand.go:73-76 | dividing the limit twice finds out exactly whether the capacity formula exceeds 64 bits |
| Arcset.PartitionsFitWidth | internal/arcsetops/expand.go:67-72 | while partitions fit, every partition's directory name has exactly the configured width |
| Arcset.AppendKeepsUnique | internal/db/postgres_schema.sql:37-46 | datasets, keys and append orders stay unique, and the new dataset is listed last |
| Arcset.AppendCounts | internal/arcset/store_pg.go:232-248 | registrations in an arcset are numbered 0, 1, 2, ... in the order in which they are made |
| Arcset.ListedInOrder | internal/arcset/store_pg.go:272-298 | the listing is exactly the arcset's datasets in ascending append order |
| StripeView.PaddedSizeUnique | internal/recoverec/recover.go:71-91 | the padded size of a stripe is determined by its rows |
| StripeView.PaddedSizeExactly | internal/recoverec/recover.go:71-91 | it is the largest padded size in the metadata of the rows or size of a parity row |
| Recover.StripeRows | internal/recoverec/recover.go:71-91 | the rows of the stripe by position, and its padded size |
| Recover.StripeFiles | internal/recoverec/recover.go:93-135 | each position's file, also without a row, and the sizes data is cut to |
| Recover.RecoverStripe | internal/recoverec/recover.go:93-163 | when recovery begins, that it writes exactly the missing files of the stripe, and when it succeeds, which Recover.RecoversExactly says in terms of files |
| Recover.RecoversExactly | internal/recoverec/recover.go:137-163 | recovery succeeds exactly when target and files allow it to begin, the file of a DATA shard with a recorded checksum has that checksum afterwards and, with target all, all k+m files are there and every column up to the padded size is a codeword |
| Recover.SuccessIsOriginal | internal/recoverec/recover.go:147-155 | when only one content has the recorded checksum, a recovery that succeeds has brought it back, however damaged the files were it was rebuilt from |
| Recover.Recover | internal/recoverec/recover.go:26-172 | the command, for any path it is given: all refusals, the repaired files, that a DATA shard has its recorded checksum after a success, and the health and degraded flags on success only |
| TreePaths.ShardPathIsFound | internal/recoverec/recover.go:248-258 | for every key: a shard is found by its stored path, and by its full path if and only if the stored one does not start with two dots |
| Recover.ShardIsFound | internal/recoverec/recover.go:248-258 | every row of the model is found by its stored path and by its full path, however they are spelled |
| CleanPath.CleanIsCanonical | internal/recoverec/recover.go:248-258 | cleaning is idempotent, and two paths clean alike exactly when their parts agree |
| CleanPath.DownAndUp | internal/recoverec/recover.go:248-258 | going down into a directory and up again leads nowhere |
| CleanPath.StaysInsideExactly | internal/shard/unpack.go:35-43 | a relative path stays in its directory exactly when it never goes further up than it has gone down |
| CleanPath.SafeJoinExactly | internal/shard/unpack.go:35-53 | a join succeeds exactly for relative paths that stay inside, below / only for / itself, and keeps their parts |
| LossTolerance.LostByPartition | internal/builddata/build.go:301-305 | losing the directories of partitions loses exactly the files of those partitions |
| LossTolerance.FewPositionsLost | internal/recoverec/recover.go:220-225 | losing at most m partitions of a group loses at most m positions of each stripe |
| LossTolerance.RecoveredAt | internal/ec/stream.go:322-337 | each wanted position gets its own file |
| LossTolerance.RecoveredKeeps | internal/ec/stream.go:322-337 | files that are there stay, and a new file is that of a wanted position |
| LossTolerance.RepairRestores | internal/ec/stream.go:213-338 | target all restores all files of the stripe byte for byte, target data the data files; nothing else is written |
| LossTolerance.RecoverSucceeds | internal/recoverec/recover.go:137-171 | recovering any shard of a whole stripe with k files left succeeds and restores it |
| PartitionLoss.RestoredExactly | internal/ec/stream.go:289-320 | on a solid stripe with k files left, a lost file comes back byte for byte if and only if its length is the recorded one cut to the padded size |
| PartitionLoss.LossIsTolerated | internal/recoverec/recover.go:26-172 | after the loss of the directories of up to m partitions per group, recovering one shard of every stripe restores every row's file, raid3 and raid5 |
| PartitionLoss.MakeEcTolerates | internal/makeec/makeec.go:94-101 | so it is after every successful unfiltered make-ec with true sizes and checksums and some data in each stripe |
| PartitionLoss.DataSparesParity | internal/ec/stream.go:264-288 | target data writes no parity file, of a whole stripe or not |
| Validate.ValidateData | internal/validate/validate.go:79-104 | passes exactly when the checks of all DATA rows do; Validate.PassesExactly says what they check |
| Validate.CountShards | internal/validate/validate.go:107-112 | counts the DATA rows of each dataset |
| Validate.ValidateShardCounts | internal/validate/validate.go:106-121 | passes exactly when no dataset has fewer rows than announced |
| Validate.ValidateEC | internal/validate/validate.go:128-180 | passes exactly when each stripe has a padded size, all rows and files, and codewords in every column |
| Validate.ValidIsSolid | internal/validate/validate.go:128-180 | passing means all stripes are solid, and conversely when all have a padded size |
| Validate.Run | internal/validate/validate.go:24-77 | which checks each stage makes, unknown arcsets included, and what it records on success only; Validate.PassesExactly says it in terms of files and rows |
| Validate.PassesExactly | internal/validate/validate.go:24-121 | each stage passes exactly when: except for stage ec, every DATA row has its file, of the recorded length when that is positive and of the recorded checksum when there is one; for all, no dataset has fewer DATA rows than announced; with parity and except for stage data, the parity is valid; and what is recorded |
| Durability.DataValidates | internal/validate/validate.go:79-104 | in every life with honest catalogs stage data passes at every state |
| Durability.DamageIsNoticed | internal/validate/validate.go:79-104 | with a checksum that tells contents apart every change to a DATA file, or its loss, makes stages data and all fail and record nothing |
| Lifecycle.NextKeeps | internal/arcset/store_pg.go:197-256 | every command, whole or cut short, with parity or without, keeps the invariant and every DATA shard, and only build-data brings new ones |
| Lifecycle.EveryStateIsSound | internal/makeec/makeec.go:44-102 | over every life rows are in place with their files and PADs are empty; with parity, parity is fresh |
| Lifecycle.CompletedMeansSolid | internal/validate/validate.go:52-76 | whenever the status is completed with parity, by make-ec or by validate, each stripe has exactly positions 0..k+m-1 and codewords in every column |
| Lifecycle.LossKeeps | internal/recoverec/recover.go:26-172 | losing up to m partitions per group and recovering a shard of every stripe is a step of a life like any other |
| Lifecycle.PlacedDataStays | internal/builddata/build.go:116-140 | a placed shard is in every later state, in its place, with the same bytes |
| Lifecycle.ExpandKeeps | internal/arcsetops/expand.go:67-84 | adding groups moves no row and keeps all promises |
| Capacity.RowsStayUnique | internal/db/postgres_schema.sql:73-80 | in every state of every life the unique indexes hold: no two rows share a file, a stored path, a partition at one stripe number, or a dataset's shard |
| Capacity.NeverBeyondCapacity | internal/builddata/build.go:327-356 | under raid3, and without parity under raid5 too, no data partition is ever filled beyond capacity, in any life |
| Durability.SolidIsWhole | internal/recoverec/recover.go:71-135 | in a sound arcset with true sizes a solid stripe has all recorded lengths and its rows agree on the padded size |
| TrueRecords.RecordsStayTrue | internal/builddata/build.go:246-324 | over every life with honest catalogs, killed anywhere, each DATA row has its file with the recorded size and checksum |
| TrueRecords.SizesStayPositive | internal/builddata/build.go:246-251 | over lives without empty shards each DATA row has a positive size |
| Durability.RecoverBeginsExactly | internal/recoverec/recover.go:89-91 | on a solid stripe with k files left recovery begins if and only if the stripe has a DATA shard that is not empty |
| Durability.CompletedSurvives | internal/recoverec/recover.go:26-172 | in every life with honest catalogs, at every completed state: after losing the directories of up to m partitions per group, recovering a shard of every stripe succeeds if and only if every stripe has some data, and then every row's file is back |
| Durability.NonEmptySurvives | internal/recoverec/recover.go:26-172 | so no loss of up to m partitions per group loses a file in lives without empty shards |
| Durability.CompletedMayLose | internal/recoverec/recover.go:26-172 | at every completed state with some data in each stripe such a loss and the recoveries are a step of the life, after which all promises hold again |
| Durability.MakeEcSucceeds | internal/makeec/makeec.go:94-101 | with true sizes and some DATA rows an unfiltered make-ec succeeds on every stripe |
| Durability.MakeEcCompletes | internal/makeec/makeec.go:44-102 | in every life with honest catalogs, at every state where make-ec may start, it completes the arcset, with parity if there is some DATA |
| Durability.ValidatesExactly | internal/validate/validate.go:145-157 | parity of solid stripes validates if and only if each stripe has a DATA shard that is not empty |
| SampleLives.EmptyShardIsNotRecovered | internal/recoverec/recover.go:89-91 | a life that completes with an empty shard: no recovery ever begins, whatever files are left, and the parity never validates |
| GenDef.GenerateShardDefs | internal/dataset/gen_def.go:6-77 | the segments tile the files in order without gap or overlap, files within the limit stay whole, no shard is empty or over the limit, a file is cut only where a shard is full, numbers are indexes |
| GenDef.ChunkSize | internal/dataset/gen_def.go:45-53 | a piece is never empty, so the branch for an empty one is unreachable; it fits, and fills the shard unless it is the last |
| GenDef.GroupingConserves | internal/dataset/gen_def.go:19-72 | no byte is lost or doubled |
| GenDef.ShardsNeeded | internal/dataset/gen_def.go:24-26 | n shards mean at least (n/2) times the limit in bytes: at most half the space is wasted |
| BinShard.MakeBin | internal/shard/make_bin.go:16-150 | fails exactly when a source cannot be read; else the shard holds the segments in order and the records say where |
| BinShard.Unpack | internal/shard/unpack.go:151-185 | writes the segments in order up to the first record with an unsafe path or bad data, and fails exactly when there is one |
| BinShard.UnpacksWhen | internal/shard/unpack.go:151-185 | a record is good exactly when its path stays below the target and its bytes are all there and can be decompressed, in all three modes; unpacking goes through exactly when all are |
| BinShard.SegmentComesBack | internal/shard/unpack.go:168-180 | each record leads back to its raw data, in all three modes |
| BinShard.PackedUnpacksExactly | internal/shard/unpack.go:151-185 | in all three modes a packed shard unpacks if and only if all its paths stay below the target |
| BinShard.PackUnpack | internal/shard/make_bin.go:48-107 | however paths are spelled: an unpacked file is its source if and only if the last segment that goes to its place is the whole file |
| FuseRead.Read | internal/fuse/fuse.go:195-242 | over readable segments a read is exactly the slice [off, off+n) of their concatenation, cut at its end; an error is one of a segment |
| FuseRead.PackedIsReadable | internal/fuse/fuse.go:245-299 | the recorded place of a packed segment reads back every stretch of it, in all three modes |
| FuseRead.ReadsWhatIsThere | internal/fuse/fuse.go:245-299 | of a shard as it is found, whole or not, a read gives the bytes that are there from the start asked for, and an error past the end of the data |
| FuseRead.BuildIndex | internal/fuse/index.go:34-79 | the index has each file's segments in the order of the query |
| FuseRead.IndexFollowsRows | internal/fuse/index.go:58-73 | row i of the query is found in the index after as many segments of its file as there are rows of the file before it |
| FuseRead.MountedReads | internal/fuse/index.go:34-79 | over any number of packed shards a mounted file reads like its segments in index order, each the beginning of the source file |
| FuseRead.MountedReadsSource | internal/fuse/index.go:34-79 | a file with one segment reads like its source if and only if it was packed whole |
| FuseRead.CutFileReadsExactly | internal/shard/make_bin.go:64-75 | a cut file reads like its source if and only if every piece repeats the beginning of the file |
| FuseRead.CutFileReadsWrong | internal/shard/make_bin.go:64-75 | two bytes in two segments that read as the first one twice |
| SortShards.TransitiveExactly | internal/builddata/build.go:439-453 | the comparison of a key column is transitive if and only if no other string interleaves with its numbers |
| SortShards.MixedKeysCycle | internal/builddata/build.go:439-453 | three keys that compare in a cycle |
| SortShards.HomogeneousNeverInterleaves | internal/builddata/build.go:439-453 | columns of numbers only or of other strings only never interleave |
| SortShards.ComparatorIsTotal | internal/builddata/build.go:418-432 | with such columns and distinct numbers the comparator is a strict total order |
| SortShards.ComparatorMeans | internal/builddata/build.go:418-432 | one shard comes before another exactly when the first key column in which they differ says so, or none does and it has the smaller number or, with equal numbers, the smaller path |
| SortShards.StringsAreLexicographic | internal/builddata/build.go:439-453 | of two strings the one is smaller that has the smaller character where they first differ, or ends there |
| SortShards.ParsesDecimals | internal/builddata/build.go:440-441 | the decimal numbers, with and without sign, are what is compared as numbers |
| SortShards.SortableExactly | internal/builddata/build.go:397-416 | a list can be sorted exactly when pattern and index list are good and every base name matches and has every submatch asked for |
| SortShards.SortShards | internal/builddata/build.go:381-437 | fails exactly when the list cannot be sorted; with distinct numbers and no interleaving column the result is the listed shards, each before the next in the order of SortShards.ComparatorMeans |
| SortShards.SortedAsAsked | internal/builddata/build.go:381-437 | the sorted list has exactly the listed shards, in the order the rule asks for |
| SortShards.NumbersAscend | internal/builddata/build.go:385-391 | without a rule of its own a dataset is placed by ascending shard numbers |
| SortShards.SortIsCanonical | internal/builddata/build.go:381-437 | two listings of the same shards both fail or sort to the one ordered list of them, when no key column interleaves |
| EcNames.StripECPrefix | internal/ec/encode.go:252-272 | the loops compute the name without its leading stripe prefix |
| EcNames.StripInvertsPrint | internal/ec/encode.go:252-272 | stripping takes off exactly what printing put on, for every base name |
| EcNames.PrefixIsStripped | internal/ec/encode.go:252-272 | digits, D or E, digits and an underscore in front are stripped, whatever the digits |
| EcNames.OnlyPrefixIsStripped | internal/ec/encode.go:252-272 | and nothing else is |
| EcNames.ExtensionExactly | internal/ec/encode.go:240-247 | the extension is what follows the first dot of the stripped name, bin without one |
| EcNames.PlanStripes | internal/ec/encode.go:26-80 | refuses exactly bad shapes and empty lists, else plans the specified entry at every position |
| EcNames.NameOf | internal/ec/encode.go:44-74 | each name is stripe, D or E, position and, for data, an underscore and the stripped name, for parity a dot and the extension |
| EcNames.PlannedNamesDiffer | internal/ec/encode.go:41-80 | no two positions of a plan have the same file |
| EcNames.OriginalsInOrder | internal/ec/encode.go:41-60 | the data of the positions in order is the input list |
| EcNames.PaddingIsLast | internal/ec/encode.go:57-60 | padding is exactly past the list, only in the last stripe |
| EcNames.PlanIsFixpoint | internal/ec/encode.go:249-272 | planning again with the renamed files, with or without pads, gives the same names everywhere |

## Left out

- GenDef.GenerateShardDefs: limits and file sizes are not negative; a negative limit does not terminate in the program.
- SlotChoice.ChoiceExists: integers are unbounded; overflow of 64-bit sizes is not modelled.
- SortShards.SortShards: the regular expression is any function from base names to submatches, the comma-separated index list is parsed outside the model, and the library's stable sort stands as insertion sort.
- FuseRead.Read: the lock of a file handle and the kernel side of the mount.
- BuildRetry.RetryConverges: one list of shards; the degraded mark does not converge, and DegradedFlag.RerunExactly says when it does and what the command reports.
- BuildRetry.RetriesConverge: one list of shards, for the same reason.
- BuildCommand.Run: the keys of the registered datasets have no slash; with one the files are not where the model says (TreePaths.ShardInPlaceExactly).
- BuildSpec.FilledNeverConflicts: shards whose keys have no slash; with others two shards may have one path (TreePaths.TwoShardsOnePath).
- Lifecycle.NextKeeps: only keys without a slash are appended, and the extension of parity files has none.
- PartitionLoss.LossIsTolerated: files whose names have no slash; with others one directory may hold many positions of a stripe (TreePaths.AllInOneDirectory).
- Durability.CompletedSurvives: lives with such keys only.
- Durability.NonEmptySurvives: lives with such keys only.
- Lifecycle.LossKeeps: a loss is a step of a life only together with the recoveries that follow it, and of an arcset whose stripes are whole.
- Shards waiting to be placed have their files outside the arcset's tree from the beginning of a life on, and one path is spelled in one way: sources inside the tree, two spellings of one source, and sources that appear later are not modelled.
- TrueRecords.RecordsStayTrue: a shard without a recorded checksum is outside honest catalogs; recover refuses its row because it compares the empty checksum.
- Lifecycle.EveryStateIsSound: commands on one arcset run one after another; two commands at the same time on one arcset are not modelled. Parallel workers inside make-ec are.
- Capacity.NeverBeyondCapacity: with parity only raid3, because under raid5 parity rows land on data partitions and the program does not check their capacity.
- Temporary files, directory creation, errors of reading and writing existing files, and removal of half-written temporary files.
- Parity files that stay on disk after their rows were deleted are in the model, but nothing cleans them up, as in the program.
- PostgreSQL and SQLite access, row ids, metadata as JSON, `last_check` times, and rows without a placement.
- The change of file extension when an arcset takes over the format of its first dataset.
- Tar and iso shards, seekable zstd.
- The in-place renaming of data files by the older `EncodeStripe`.
- GF(256) arithmetic, zstd, xz and SHA-256, which are parameters.
- The HTTP interface, web pages, command line, simulator, statistics and exports, the single-database SQLite path.
- The health states degraded and failed, which no command sets.
