# Essential node: a verified model

The node follows a remote stream of blocks into a SQLite database, answers state queries from it, and
validates one block after another. This project models that machinery in Dafny and proves what the parts
promise each other:

- **State is an index, and the index is a replay.** State is never materialised. A query joins mutations with
  the finalized blocks they stand in and takes the row at the greatest position at or below its bound.
  `ChainState` is the simple meaning, last write wins over all finalized mutations in order; `StateIndex`
  proves that all four queries return exactly what it holds, and that consistency of the sets is necessary
  as well as sufficient.
- **Validation is sequential execution.** The readers before and after each set of a block see the states
  between the sets of a run on the chain below it (`Validate`), on disk and in a dry run that puts a one-block
  database in front of the disk (`DryRun`).
- **The relayer keeps a prefix of its source** over cut, broken and restarted streams, and keeps an interval of
  block numbers whatever it is sent (`Relayer`).
- **The validator never moves past an invalid block and never misses a wake-up**, however its steps interleave
  with commits, errors and restarts (`ValidationStream`), and every notification is served, once (`WakeUp`).
  Its sequential code is proved against the database (`Validator`). Blocks that do not read back as themselves
  are the exception, and the theorems say exactly what becomes of them (`Soundness`).
- **What is stored comes back** (`Tables`, `Reads`, `Listing`, `Storage`, `RoundTrip`), block 0 is put in place
  once however often the start is cut short (`BigBang`), and **a permit guarantees a connection** (`Pool`).

## How it fits together

`Types`, `Words` and `Rows` are the vocabulary. `Tables` has the relational tables as sequences of rows, the
insert statements as functions on them, and a ghost account (`Contents`, `Rep`) of what they hold. `Storage`
is the class `Database`: its methods are the loops of the node's database functions, and its ghost functions
`Chain()`, `ReadBack(b)`, `Progress()` and `Failures()` give the tables' meaning. Everything above speaks of
that meaning only. `Soundness` says when all that is stored reads back. `Validator` and `BigBang` are methods
over `Database`; `Relayer` is too, with a function on chains that says what a run does. `ValidationStream` and
`Pool` have step systems for what is concurrent: a run is a sequence of states, and the theorems hold of every
state of every run. `Composition` shows that the methods take the steps of that system.

The virtual machine and the decoding of predicates are a parameter (`Vm`): any function of the set, the
predicates and programs fetched for it, and the two states it may read. Content addresses come from a
parameter too (`Hasher`), assumed free of collisions. The relayer's stream is a parameter: a sequence of
blocks and failures. A shutdown, or a crash between two transactions, is a shorter stream.

Assumptions the code relies on and the model states:

- Two mutations of one slot within one solution set carry the same value (`Consistent`). The default big bang
  block relies on this weaker condition rather than on there being only one. No theorem needs it of sets above
  the position it speaks of (`ClearTo`), since reads ignore what stands above their bound.
- For a block to read back as itself, each of its sets has been stored once, or holds nothing that could come
  back repeated (`ReadBackIsSame`); the mutation and predicate data tables have no uniqueness constraint. State
  queries do not need this. The validator does: it judges the block it reads back, whose address names nothing if
  it is not the block that was stored. Nothing in the code rules such blocks out. The model lets them be stored and
  committed; `AppendsSoundIff` says which blocks keep everything readable, and `SettledIffReadsBack`,
  `UnreadIsNeverSettled` and `NoLostWakeUp` say what happens with those that do not.
- A block without solution sets cannot be read back: its join yields a NULL address. The model has this error.
- The `ORDER BY` of the mutation and predicate data queries stands after a semicolon
  (`crates/node-db-sql/sql/query/get_solution_mutations.sql:9-11`), so it is not part of the statement. Rows
  are taken to come back in insertion order.
- A short final chunk of bytes is padded with zeros on the right when it is made a word.

Where the code and its comments differ, the model follows the code. Some examples: a key range that ends at the
greatest key is an error although every key in it exists, since the successor of its last key is computed as
well (`KeyRange`); the pool's promise that a permit guarantees a connection does not survive a `close` that
races with a task between permit and pop (`CloseIsSafeIffNoneAcquiring` gives the exact condition); the
validator's promise to record an invalid block fails for one whose sets were stored twice
(`RepeatedSetIsForgotten`) or one on which a read fails while it is checked (`ReadErrorRecordsValid`); and a dry
run of a single set is given the newest block's own number rather than the next (`DryRunIsNextBlockIff` says when
that makes no difference).

## Model

| member | source | states |
|---|---|---|
| Words.BlobRoundTrip | crates/node-db/src/lib.rs:726-735 | reading words back from the blob they were stored as gives the same words, for any words |
| Words.WordsRoundTrip | crates/node-db/src/lib.rs:730-735 | any blob read as words and stored again is itself less a final partial word |
| Words.BytesOfWord | crates/node-db/src/lib.rs:726-728 | a word is stored as its two's complement, most significant byte first: its eight bytes with their weights add up to it |
| Words.NextKeyIsSuccessor | crates/node/src/validate.rs:677-688 | as a big-endian number in base 2^64 the next key is greater by exactly one, of the same length, and missing exactly when it would not fit |
| Words.KeyOrder | crates/node/src/validate.rs:677-688 | that number orders keys of one length by the first word that differs |
| Words.CarryChain | crates/node/src/validate.rs:677-688 | the carry runs over the maximal words at the end, makes them minimal, and adds one to the word before them |
| Words.NoNextKey | crates/node/src/validate.rs:677-688 | there is no next key if and only if every word is maximal |
| Words.NextKeyInPlace | crates/node/src/validate.rs:677-688 | the reverse loop over the words, in place, leaves that successor in the array or reports that there is none |
| ChainState.WritesAreMutations | crates/node-db/src/lib.rs:122-137 | the writes of a set are exactly the mutations of its solutions under the contracts they solve |
| ChainState.PrefixWrites | crates/node-db-sql/sql/query/query_state_at_solution_set_finalized.sql:11-14 | cutting the chain at a bound keeps exactly the writes at positions lexicographically at or below it |
| ChainState.PrefixIgnoresLater | crates/node-db-sql/sql/query/query_state_at_block_finalized.sql:11-11 | what lies at or below a bound does not change when a block is put above it |
| ChainState.ApplyLookup | crates/node-db-sql/sql/query/query_state_at_block_finalized.sql:8-16 | in replay the last write to a slot wins, and a slot that is not written keeps what it held |
| ChainState.ReplayIsNewest | crates/node-db-sql/sql/query/query_state_at_block_finalized.sql:8-16 | replay always holds a write that no other write to its slot comes after, and nothing only where nothing was written |
| ChainState.NewestIsReplay | crates/node-db-sql/sql/query/query_state_at_block_finalized.sql:8-16 | on consistent sets a search for the newest write may return a value if and only if replay holds it |
| Reads.CopiedIsSame | crates/node-db-sql/sql/create/mutation.sql:1-8 | a set stored n times comes back as itself if and only if n is 1 or there is nothing in it to repeat |
| Storage.Database.InsertBlock | crates/node-db/src/lib.rs:73-155 | the nested insert loops add one block row unless it is there, count each set once more, and leave the finalized, failed and progress tables alone, whatever was stored before |
| Storage.Database.StoreSet | crates/node-db/src/lib.rs:103-147 | one turn of the outer loop stores one more copy of a set, new or not, and links it at its position at most once |
| Storage.Database.FinalizeBlock | crates/node-db/src/lib.rs:159-167 | the insert succeeds if and only if the number is free, then extends the chain by this block; an aborted insert or an unknown address changes no entry |
| Storage.Database.WriteBlock | crates/relayer/src/sync.rs:122-139 | insert and finalize in one transaction: the block is appended if its number is free, and otherwise every table is as it was |
| Storage.Database.GetSolutionSet | crates/node-db/src/lib.rs:234-285 | the loops over rows give back the solutions in order, each with its mutations and data as often as the set was stored; an unknown address gives an empty set |
| Storage.Database.GetBlockHeader | crates/node-db/src/lib.rs:306-324 | the header of the stored block with this address, and nothing if there is none |
| Storage.Database.GetBlock | crates/node-db/src/lib.rs:327-359 | the stored block with its sets in order, an error if and only if it has no sets, and nothing for an unknown address |
| Listing.SortedRowsAreBlocks | crates/node-db-sql/sql/query/list_blocks.sql:13-16 | sorting the joined rows by number, address and set index lays each block's rows side by side, in the order of the sorted blocks |
| Listing.ListedIsOrdered | crates/node-db-sql/sql/query/list_blocks.sql:11-16 | the listed blocks are sorted by the statement's order, and are exactly the stored blocks in range, with multiplicity |
| Listing.AddrLeIs | crates/node-db-sql/sql/query/list_blocks.sql:15-15 | an address sorts before another exactly if it is a prefix of it or has the smaller byte where they first differ |
| Listing.ListedInOrder | crates/node-db-sql/sql/query/list_blocks.sql:11-16 | the listed blocks are just the stored ones numbered from the start of the range to below its end; numbers never fall, and of two with one number the first has the lesser address, byte by byte |
| Listing.ListedDistinct | crates/node-db-sql/sql/query/list_blocks.sql:1-16 | no block is listed twice |
| Storage.Database.GroupRows | crates/node-db/src/lib.rs:445-478 | the grouping loop, which begins a block whenever the address changes, puts the blocks back together from the sorted rows |
| Storage.Database.ListBlocks | crates/node-db/src/lib.rs:422-479 | each stored block numbered in the range comes out once, as it reads back with all of its sets; numbers never fall, and for one number addresses go up as bytes compare; it fails if and only if a block in the range has no sets |
| Storage.Database.GetLatestFinalized | crates/node-db/src/lib.rs:362-369 | the address of the finalized block with the greatest number, and nothing for an empty chain |
| Storage.Database.GetNextBlockAddresses | crates/node-db/src/lib.rs:399-419 | the addresses of all stored blocks numbered one above the given block, and none for an address that names no block |
| Storage.Database.UpdateValidationProgress | crates/node-db/src/lib.rs:204-215 | the single row then names the block with this address; an address that names no stored block is an error, and changes nothing; chain and failures stay |
| Storage.Database.InsertFailedBlock | crates/node-db/src/lib.rs:170-183 | a block and set are added to the failures unless they are there; if either address names nothing stored the insert is dropped without an error; chain and progress stay |
| StateIndex.MutationRowExists | crates/node-db/src/lib.rs:122-137 | every mutation of a stored set has a row under its solution, at its own index, with its key and value as blobs |
| StateIndex.DataRowExists | crates/node-db/src/lib.rs:138-146 | every value of a stored set's predicate data has a row under its solution, at its own index |
| StateIndex.HitsAreWrites | crates/node-db-sql/sql/query/query_state_at_solution_set_finalized.sql:3-10 | the four-table join finds a value at a position if and only if the finalized set there writes it, however many duplicate rows the set has |
| StateIndex.MayReturnIsNewest | crates/node-db-sql/sql/query/query_state_at_solution_set_finalized.sql:11-19 | the rows that may come first are exactly the newest writes at or below the bound |
| StateIndex.QueryIsReplay | crates/node-db/src/query_range/finalized.rs:13-99 | where no set at or below the bound is ambiguous, a query may return a value if and only if replay up to the bound holds it, for every contract, key and bound; sets above do not matter |
| StateIndex.RepliesAreReplayIffConsistent | crates/node-db-sql/sql/query/query_state_at_solution_set_finalized.sql:15-19 | every possible reply of every query agrees with replay if and only if all finalized sets are consistent |
| StateIndex.BlockQueries | crates/node-db/src/query_range/finalized.rs:13-50 | exclusive and inclusive of a block are the states before and after all its sets, at the least number and past the end as well, each if nothing up to that very position is ambiguous |
| StateIndex.SetQueries | crates/node-db/src/query_range/finalized.rs:55-99 | exclusive and inclusive of a set are the states it starts from and leaves, at index 0 and past the last set as well, each if nothing up to that very position is ambiguous |
| StateIndex.SamePrefixSameReplies | crates/node-db-sql/sql/query/query_state_at_solution_set_finalized.sql:11-14 | two databases whose finalized chains agree up to a bound may return the same replies below it |
| StateIndex.InsertKeepsReplies | crates/node-db/src/lib.rs:103-147 | storing a block, even one whose sets are stored already, leaves the possible replies of every query as they were |
| Soundness.ReadBackIsSame | crates/node-db/src/lib.rs:327-359 | a stored block reads back as itself if and only if each of its sets was stored once or has nothing to repeat |
| Soundness.DistinctIsOnce | crates/node-db/src/lib.rs:103-147 | sets are distinct, as the round trip and the start need, if and only if each occurs once |
| Soundness.ReadsBackEarlier | crates/node-db-sql/sql/insert/mutation.sql:1-21 | a block that reads back as itself did so when less was stored, so one that has stopped never does again |
| Soundness.AppendIsSoundIff | crates/relayer/src/sync.rs:122-139 | storing and finalizing a block keeps a sound chain sound if and only if the block is not empty, not ambiguous, and each of its sets is new and not repeated or has nothing to repeat |
| Soundness.AppendsSoundIff | crates/relayer/src/sync.rs:76-117 | after any number of blocks the chain is sound if and only if each fitted when its turn came |
| Soundness.FreshFits | crates/node-db/src/lib.rs:103-147 | a non-empty, unambiguous block of distinct sets that are not stored yet always fits |
| RoundTrip.InsertThenGet | crates/node-db/src/lib.rs:73-155 | a block of distinct sets not stored before is read back as it was, and every earlier block still reads as it did |
| Registry.ContractKeysDistinct | crates/node-types/src/lib.rs:126-160 | salt, contract-predicate and predicate keys are each injective in their addresses and never equal one another |
| Registry.KeyFormats | crates/node-types/src/lib.rs:126-178 | the key formats word for word: [0, contract, 0], [0, contract, predicate], [1, predicate] and [0, program], an address being the four words whose bytes it is |
| Registry.ProgramKeysDistinct | crates/node-types/src/lib.rs:173-178 | program keys are injective in the address |
| Registry.DecodeInvertsEncode | crates/node/src/validate.rs:611-659 | decoding a registration gives the bytes that were registered, for any length modulo eight |
| Registry.DecodeIsPrefix | crates/node/src/validate.rs:643-656 | an entry is unreadable if and only if it is empty or begins with a negative length; otherwise it stands for as many bytes of its words as the length says, or all of them if there are fewer |
| Registry.RegisterProgramMutations | crates/node-types/src/lib.rs:264-285 | one mutation, at [0, program address], whose value is the length in bytes and then the bytes in as few words as hold them, filled up with zeros; it decodes to the program |
| Registry.RegisterContractMutations | crates/node-types/src/lib.rs:198-245 | the salt's bytes at [0, contract, 0], then for each predicate in order the mark 1 at [0, contract, predicate] and its encoding, with its length, at [1, predicate] |
| RoundTrip.RegisteredProgramReadsBack | crates/node/src/validate.rs:611-659 | a program registered in a finalized set is fetched byte for byte after that set, until a later set writes its key |
| RoundTrip.ProgramReadsBack | crates/node/src/validate.rs:611-659 | the same at any position, before or after a set, by the last write at or below it |
| RoundTrip.PredicateReadsBack | crates/node/src/validate.rs:510-578 | a registered predicate that its contract lists is fetched and decoded as registered |
| Validate.ViewIsRead | crates/node/src/validate.rs:405-474 | what a reader can see is, slot by slot, what a single read through the cascade returns |
| Validate.DiskView | crates/node/src/validate.rs:661-674 | on disk the reader before set i holds the state after i sets of a run, the reader after it the state after i + 1, whatever is finalized above |
| Validate.KeyRange | crates/node/src/validate.rs:432-474 | a range succeeds if and only if the key's value plus the count is below 2^(64 length), and its i-th value is what a read returns at the key whose value is greater by i, or empty if it returns nothing |
| Validate.KeyRangeOnDisk | crates/node/src/validate.rs:432-474 | on disk, unless a set up to the position is ambiguous, that is what the replayed state around the position holds at those keys, and empty where it holds nothing |
| Validate.QueryPredicateIs | crates/node/src/validate.rs:510-578 | a predicate is absent if and only if its contract does not list it or it has no entry; it is fetched if and only if the entry is a non-negative length and words whose bytes up to it decode, and then what they decode to |
| Validate.QueryProgramIs | crates/node/src/validate.rs:611-659 | a program is absent if and only if it has no entry, malformed if and only if its entry is empty or begins with a negative length, and otherwise the bytes of the entry up to its length |
| Validate.CheckSetIs | crates/node/src/validate.rs:219-323 | a set passes with some gas if and only if the machine passes it with that gas, given exactly the predicates its solutions solve as the state registers them, and exactly the programs these name |
| Validate.QuerySolutionSetPredicates | crates/node/src/validate.rs:478-508 | all predicates of a set by address if every one can be fetched, and otherwise the first that cannot, with the reason |
| Validate.QueryPredicatesPrograms | crates/node/src/validate.rs:580-609 | all programs the predicates name if every one can be fetched, and otherwise one that cannot, with the reason |
| Validate.ExplainsIs | crates/node/src/validate.rs:226-323 | each reason for a failure applies if and only if the state says so: which predicate is the first that is not registered and whether a slot is empty, which named program has no entry or a malformed one, or that the machine rejects the set with the right predicates and programs |
| Validate.ValidateSet | crates/node/src/validate.rs:219-323 | if a set passes, each of its predicates is listed by its contract and has a well-formed entry, and the machine passed it with the right predicates and programs; the first predicate that is not registered is reported, as missing if either slot is empty and otherwise as invalid; if all are, a named program may be reported, as missing without an entry and as invalid with an empty entry or a negative length; and otherwise the machine decides |
| Validate.ValidateInner | crates/node/src/validate.rs:196-334 | valid if and only if every set passes and the gas sum fits in 64 bits, with that sum; otherwise the least index that fails or overflows, with a reason that applies to it |
| Validate.OneVerdict | crates/node/src/validate.rs:196-334 | two verdicts on the same results agree on validity, on the gas, and on the failing index |
| Validate.DiskReadsPositions | crates/node/src/validate.rs:196-334 | the results on disk are those of checking each set between the states around its position, for any block, stored or not, and whatever is finalized above it |
| Validate.PositionsRunInSequence | crates/node/src/validate.rs:204-217 | at its own place in the chain a block gets the results of running its sets one after another on the replay of the chain below it |
| Validate.DiskRunsInSequence | crates/node/src/validate.rs:182-194 | a finalized block gets the results of that sequential run |
| Validate.VerdictIsExecution | crates/node/src/validate.rs:196-334 | the verdict on a run is what running the sets one after another comes to, stopping at the first that does not pass or takes the gas to 2^64 |
| Validate.ValidateOnDisk | crates/node/src/validate.rs:182-194 | unless a set up to the block's last position is ambiguous, the verdict on any block is that of its sets between the states around their positions, and on a finalized block that of running them one after another on the replay of the chain below |
| DryRun.NewMemory | crates/node/src/validate.rs:345-368 | the memory database holds the candidate as its only block, finalized |
| DryRun.DryRunRead | crates/node/src/validate.rs:405-424 | a cascaded read gives what the candidate has written by then, and otherwise what the disk holds at that position |
| DryRun.OverlayIsCommitIff | crates/node/src/validate.rs:405-424 | a dry-run read equals the read after committing the candidate if and only if the candidate has written the slot or the block on disk at its number has not changed it |
| DryRun.OverlayIsCommit | crates/node/src/validate.rs:345-424 | if disk has no other block with the candidate's number, both readers of every set see what they would see after a commit |
| DryRun.DryRunView | crates/node/src/validate.rs:345-424 | whatever disk holds, a reader sees what the candidate has written by then laid over what disk holds at that position |
| DryRun.ValidateDryRun | crates/node/src/validate.rs:167-180 | the verdict on that overlay, for any disk, unless a set up to the candidate's last position is ambiguous; without another block at the candidate's number, the verdict of running the candidate on the chain below it |
| DryRun.DryRunIsNextBlockIff | crates/node/src/validate.rs:126-160 | a single set is checked as it would be in a block at the next number if and only if the newest block as a whole leaves the state below it as it was and its first set leaves all slots as they were that the set does not write |
| DryRun.DryRunMissesNewest | crates/node/src/validate.rs:126-160 | an input where it is not: the newest block writes a slot that the set reads; the dry run fails and the next block would pass |
| DryRun.ValidateSetDryRun | crates/node/src/validate.rs:136-160 | a single set is given the newest block's own number: it is checked from the state before that block to the state after that block's first set with its own writes on top, which under the condition above is the verdict of the next block |
| Relayer.GetBlockProgress | crates/relayer/src/sync.rs:25-43 | the number and address of the newest finalized block, and nothing for an empty chain |
| Relayer.IsFork | crates/relayer/src/sync.rs:142-166 | true exactly when the first item is not the block whose address was stored |
| Relayer.Append | crates/relayer/src/sync.rs:76-117 | consumes the stream block by block: chain and outcome are those of `Follow`; exactly the blocks written are stored and notified, and nothing else changes in any table |
| Relayer.RunBlocks | crates/relayer/src/lib.rs:71-99 | one run does what `Run` says to the chain and stores exactly the blocks it wrote; a fork, or a run that wrote nothing, leaves every table as it was; a steady database stays steady if and only if every written block fits |
| Relayer.Supervise | crates/relayer/src/lib.rs:106-139 | restarts on recoverable errors only, each time from the chain as it then is; over all runs exactly the written blocks are stored, and a steady database stays steady if and only if they all fit |
| Relayer.RestartedIsRuns | crates/relayer/src/lib.rs:106-139 | the restart loop is a number of plain runs, each but the last ending in a recoverable error; it ends as the last one does, and stops before the streams are used up only at another end |
| Relayer.FollowIs | crates/relayer/src/sync.rs:76-117 | the blocks written are the longest head of the stream numbered up by one each, as long as numbers are free; then the run ends in order with the stream, in a restart at a broken item or a block out of sequence, and in a failed write at a number that is taken |
| Relayer.RunKeepsInterval | crates/relayer/src/sync.rs:76-117 | for any stream the finalized numbers stay an interval from 0, no entry changes, and a write can fail only at the greatest number |
| Relayer.RunsKeepInterval | crates/relayer/src/lib.rs:106-128 | the same over any sequence of runs on arbitrary streams |
| Relayer.CeilingRollsBack | crates/relayer/src/sync.rs:76-83 | at the greatest number a second block with it passes the sequence check, fails to finalize, and leaves the database as it was in every table |
| Relayer.ForkIff | crates/relayer/src/sync.rs:66-73 | a run ends as a fork if and only if there is a newest block and the stream ends first or begins with another; the chain is then unchanged |
| Relayer.RunFollowsSource | crates/relayer/src/sync.rs:50-119 | against a source that only appends, a run adds exactly the blocks that arrived, is never a fork once one has, and no write fails |
| Relayer.RunsFollowSource | crates/relayer/src/lib.rs:106-128 | over any sequence of cut, broken and restarted runs a prefix of the source stays a prefix and never shrinks |
| Relayer.DisagreementIsFork | crates/relayer/src/sync.rs:66-73 | a source with another block at the last synced number makes the run a fork that leaves the database as it was in every table |
| Relayer.FollowSource | crates/relayer/src/sync.rs:50-119 | against a source whose blocks all fit, a steady database holding the source's first blocks is steady still and holds the source's first blocks still, no fewer |
| Relayer.Poll | crates/node-db/src/lib.rs:653-693 | one turn of the subscription: an error if and only if a block with the index's number has no sets, nothing if and only if there is no such block, and else the one with the greatest address as it reads back; from a source with one block for each number, that block |
| Relayer.Subscribe | crates/node-db/src/lib.rs:668-693 | the loop over polls of a growing source yields what `Emitted` says: a block that is there is emitted and the index moves on, and otherwise it stays |
| Relayer.SubscriptionIsFromSource | crates/node-db/src/lib.rs:653-693 | however the source grows between polls, what a subscription yields is the source from its start, in order and without a gap |
| Validator.VerdictsAreExecution | crates/node/src/validation.rs:112-166 | a block of the chain is valid if and only if its sets can be run one after another on the replay of the chain below it, and fails at the set where that run stops |
| Validator.OneJudgement | crates/node/src/validation.rs:112-166 | a block that fails at a set is not valid and fails at no other set |
| Validator.GetNextBlock | crates/node/src/validation.rs:179-198 | a fork if two stored blocks carry the next number, an error if the one that does has no sets, else that block as it reads back, or none |
| Validator.BlockInIs | crates/node/src/validation.rs:179-198 | the search finds a fork if and only if two stored blocks carry the number, nothing if and only if none does, and otherwise the one block, read back or as an error |
| Validator.SyncedBlockIn | crates/node/src/validation.rs:179-198 | where all that is stored is finalized the search finds what the finalized block with that number reads back as |
| Validator.SteadyBlockIn | crates/node/src/validation.rs:179-198 | on a steady database, which `RunBlocks` keeps steady exactly for fitting blocks, the search cannot fail and finds exactly the finalized block |
| Validator.ValidateNextBlock | crates/node/src/validation.rs:87-168 | on any database: two stored blocks numbered one above progress are a critical fork, and no error changes a table; the block as read is judged, rightly unless a set up to it is ambiguous; if it is stored, progress moves to it or its failure is recorded once; if not, nothing changes, and a passing block is a retry while a failing one is silently dropped |
| Validator.SettledIffReadsBack | crates/node/src/validation.rs:103-166 | the call leaves the next block validated or on record if and only if it reads back as itself or was on record before; otherwise it changes nothing |
| Validator.RepeatedSetIsForgotten | crates/node/src/validation.rs:143-164 | an input where the record is lost: block 1 repeats a failing set, fails, and the call answers that nothing is left, with progress and failures as they were |
| Validator.ValidateBatch | crates/node/src/validation.rs:41-62 | the inner loop ends, past valid blocks only, at the newest block, or below the first invalid one, which is then on record, or below the first that does not read back as itself; what it says of a block supposes only that nothing up to that block is ambiguous |
| Validator.BatchCompletesIffValid | crates/node/src/validation.rs:41-62 | the batch reaches the newest finalized block if and only if every block it had to judge reads back as itself and is valid |
| Validator.BatchRecords | crates/node/src/validation.rs:41-62 | a batch that reaches the newest block leaves the record alone; otherwise the next block has gone on record, without an error, if it reads back, and nothing has if it does not |
| ValidationStream.ReadOverIsNow | crates/node-db-sql/sql/query/query_state_at_solution_set_finalized.sql:11-19 | reads made at different moments of one check, while blocks are committed, each return what the index may return on the chain as it is now |
| ValidationStream.ReadOverIsStateAt | crates/node-db-sql/sql/query/query_state_at_solution_set_finalized.sql:11-19 | if nothing up to the position is ambiguous all reads of one check amount to one state, the one replay holds there |
| ValidationStream.StepKeeps | crates/node/src/validation.rs:29-168 | every step of relayer and validator, whatever is committed, keeps the invariant on the block in hand, the record and the wake-up channel, and that on verdicts as far as nothing up to the next block is ambiguous |
| ValidationStream.ChainOnlyGrows | crates/relayer/src/sync.rs:107-113 | an earlier chain of a run is what lies below its own height in any later one, and counts of stored sets only grow |
| ValidationStream.SoundIffAllFit | crates/relayer/src/sync.rs:107-113 | the chain of a run is sound if and only if every block fitted when it was committed |
| ValidationStream.ProgressStep | crates/node/src/validation.rs:118-124 | a step moves progress by one or not at all, whatever is committed |
| ValidationStream.ProgressSafety | crates/node/src/validation.rs:92-141 | progress names a finalized block and every block from 1 to it is valid on the replay of its own prefix unless a set up to that very block is ambiguous, whether or not reads fail; while none has, progress moves only while nothing is on record |
| ValidationStream.UnreadIsNeverSettled | crates/node/src/validation.rs:103-166 | a block that does not read back as itself when the validator turns to it is never validated and never recorded in any continuation |
| ValidationStream.InvalidNeverPasses | crates/node/src/validation.rs:112-166 | if nothing up to it is ambiguous, a finalized block that fails is never passed in any continuation, whatever is committed above it and whether or not reads fail |
| ValidationStream.InvalidIsFinal | crates/node/src/validation.rs:145-164 | if nothing up to the judged block is ambiguous and no read has failed: progress never moves after an invalid verdict, the record stays or becomes that one row, judging the same block again names the same set, and it is the same block for as long as it reads back as itself, whatever is committed above |
| ValidationStream.RecordIsFinal | crates/node-db-sql/sql/insert/failed_block.sql:1-7 | under the same conditions, once a failure is recorded the table holds exactly that row for good, for the block after progress |
| ValidationStream.ReadErrorRecordsValid | crates/node/src/validate.rs:309-322 | why reads must not fail for that: from any check of a valid block, one failing read leads to a record of the block and progress past it |
| ValidationStream.NoLostWakeUp | crates/node/src/validation.rs:64-78 | whatever is committed: parked with nothing unseen, every block whose commit was followed by a notification is passed, or the block after progress, numbered no higher, is on record or does not read back as itself |
| ValidationStream.NoLostWakeUpUnlessInvalid | crates/node/src/validation.rs:64-78 | if the block after progress reads back, nothing up to it is ambiguous and no read has failed, every such block is valid, or numbered at or above the one block that is on record as invalid |
| ValidationStream.LeftAloneItJudges | crates/node/src/validation.rs:87-168 | without interference, if nothing up to the next block is ambiguous, the steps change progress and failures as the one call does, and go on as the stream does with its answer |
| WakeUp.WakesAreNotified | crates/node-types/src/block_notify.rs:26-45 | in any run the validator wakes no more often than it has been notified, counting what it had not seen at the start; the version counts the notifications |
| WakeUp.NotifiedBetweenWakes | crates/node-types/src/block_notify.rs:26-45 | between two wake-ups there is a notification |
| WakeUp.NotifiedIsServed | crates/node/src/validation.rs:39-78 | from every parked state of a run with an unseen notification, waking leads by the validator's own steps to rest with nothing unseen, unless to a block up to which a set is ambiguous; if parked again it has passed all that is finalized, or the next block holds it |
| WakeUp.RunsToRest | crates/node/src/validation.rs:39-78 | the same from wherever it polls, as after a restart or a recoverable error; rest is the newest block, a block that fails and is on record if it reads back, a block without sets, or a block it retries for ever since it passes but does not read back |
| WakeUp.OneWayOn | crates/node/src/validation.rs:87-168 | if nothing up to the next block is ambiguous, what the validator does next is determined |
| WakeUp.StepFrame | crates/node/src/validation.rs:29-78 | only commits change the chain, notifications the version, wake-ups and restarts what is seen; a parked validator goes on only when woken, restarted or stopped |
| WakeUp.StoppedStays | crates/node/src/validation.rs:64-78 | once stopped, the stream validates and records nothing until the node is restarted |
| Composition.StartedIsInit | crates/node/src/lib.rs:92-101 | a database as the start leaves it is a first state of the step system |
| Composition.RunCommits | crates/relayer/src/sync.rs:76-117 | on an interval chain, what a run does on any stream is a sequence of commit steps of exactly the blocks it wrote |
| Composition.CommitsAppend | crates/relayer/src/sync.rs:76-117 | commit steps append their blocks to the chain, count their sets, and touch nothing else |
| Composition.RelayerCommits | crates/relayer/src/lib.rs:71-99 | the relayer's code takes a state that shows the database by those steps to one that shows it again |
| Composition.OneWayToJudge | crates/node/src/validation.rs:87-168 | progress, failures and answer of a judgement are determined by what was there before |
| Composition.ValidatorSteps | crates/node/src/validation.rs:87-168 | one call of the validator's code takes a state that shows the database by its own steps to one that shows it again, with the stream standing as after the call's answer |
| Pool.ConnectionPool.Pop | crates/rusqlite-pool/src/lib.rs:61-66 | takes the connection idle longest, and none only from an empty queue |
| Pool.ConnectionPool.Close | crates/rusqlite-pool/src/lib.rs:92-98 | the loop ends with the queue empty and has closed its connections in order |
| Pool.NewPool | crates/rusqlite-pool/src/lib.rs:44-54 | a full queue of the opened connections in order, or nothing if and only if one failed to open |
| Pool.StepKeeps | crates/rusqlite-pool/src/tokio.rs:21-93 | every step conserves connections and permits; the only thing that can go wrong is a pop from an empty queue, never a push |
| Pool.Conservation | crates/rusqlite-pool/src/tokio.rs:63-93 | in every reachable state idle, handed out, returning and closed connections are together those the pool began with |
| Pool.PermitsAreCovered | crates/rusqlite-pool/src/tokio.rs:21-29 | with the declared drop order, permits not yet turned into a pop are covered by idle connections except for those a close took |
| Pool.PopSucceeds | crates/rusqlite-pool/src/tokio.rs:63-77 | in every run without a close the pop after a permit succeeds |
| Pool.GuaranteeIffConnectionFirst | crates/rusqlite-pool/src/tokio.rs:21-29 | that guarantee holds of all pools and runs if and only if the connection is dropped before the permit |
| Pool.CloseTerminates | crates/rusqlite-pool/src/lib.rs:92-98 | all close loops together take at most as many turns as there are connections, in any interleaving, also one that ends in a panic |
| Pool.CloseEmpties | crates/rusqlite-pool/src/lib.rs:92-98 | when a close ends no connection is idle: each one is closed, handed out or on its way back |
| Pool.CloseIsSafeIffNoneAcquiring | crates/rusqlite-pool/src/tokio.rs:90-93 | starting a close can lead to a failing pop if and only if some task holds a permit it has not used |
| Pool.AsyncConnectionPool.PopGranted | crates/rusqlite-pool/src/tokio.rs:63-67 | the pop after a permit is a step of the system and yields a connection unless the pool is closed and connections have been closed |
| Pool.AsyncConnectionPool.TryAcquire | crates/rusqlite-pool/src/tokio.rs:73-77 | undisturbed, a connection if and only if there is a permit and the pool is open: the one idle longest, now handed out, for one permit |
| Pool.AsyncConnectionPool.ReturnConnection | crates/rusqlite-pool/src/lib.rs:132-138 | a connection that was handed out always finds room in the queue, after a close as well, and is back before its permit |
| Pool.AsyncConnectionPool.Drop | crates/rusqlite-pool/src/tokio.rs:21-29 | dropping a handle gives back exactly what acquiring took, the connection and one permit |
| Pool.AsyncConnectionPool.Close | crates/rusqlite-pool/src/tokio.rs:90-93 | the semaphore is shut, every idle connection is closed in order, and those handed out are untouched; undisturbed this is a run of the step system that closes one connection at each step |
| BigBang.PutFirstBlock | crates/node/src/lib.rs:61-90 | block 0 is stored and finalized if no block numbered 0 is stored; otherwise nothing changes, and a stored one without sets is a listing error, one that reads back as another block an error that names the expected and the found address |
| BigBang.EnsureBigBangBlock | crates/node/src/lib.rs:50-101 | the same, and progress begins at block 0 unless it has begun, there was an error, or the node stopped in between |
| BigBang.StartAgain | crates/node/src/lib.rs:50-101 | any number of cut or complete starts followed by a complete one leaves what a single start from empty leaves |
| BigBang.StartedIsSteady | crates/node/src/lib.rs:92-101 | a started database is as the relayer's and the validator's proofs need it |

## Left out

- Address-keyed state queries and `get_parent_block_address`: `insert_block` stores a placeholder parent, so what they should return on a fork is not decided by the code. The `parent_block_id` column is not modelled.
- `list_blocks_by_time`: its page limit counts joined rows rather than blocks, so it has no clean contract.
- `list_unchecked_blocks` and `list_failed_blocks`: the first repeats the grouping loop of `list_blocks` with one more filter, the second only joins; they would add easy members.
- The `state` table with `update_state` and `delete_state`: a plain map that the validator does not read.
- The wall clock of `validate_solution_set_dry_run`: the time is a parameter.
- HTTP server, router, command line, tracing, and the decoder of the relayer's byte stream: the stream is a sequence of blocks and failures.
- Internals of SQLite, tokio and crossbeam: a transaction is atomic, the watch channel is a version counter with the version each receiver has seen, the semaphore is a counter, and the queue is a bounded sequence.
- I/O errors and the tables that map errors to recoverable or critical: a recoverable error is an interruption (`Broken` for the relayer, `Interrupt` for the validator). Other database errors are not part of the model.
- A database error in a read that the virtual machine makes (`crates/node/src/validate.rs:309-322`): the sequential code of `Validate` has none, its machine being a function of the set and of the two states. In `ValidationStream` such an error is a step.
- The hash function, the virtual machine and the encoding of predicates: parameters, with collision freedom assumed of the first.
- Storing unsigned values as signed 64-bit integers: set indices and timestamps are unbounded naturals here.
- Relayer.Poll: `block_ix + 1` is not limited to a word, so the overflow at the greatest index is not modelled.
- Relayer.Subscribe: for the same reason asks for sources that end below the greatest number. The source at each poll is a database of its own; that it is one database at several moments is not said.
- Registry.RegisterContractMutations: predicates come as address and encoding, so the error of encoding a predicate is not modelled.
- Validator.ValidateBatch: requires that every stored block is finalized and the chain has no gaps, as the relayer and the start leave it. A verdict on a block up to which a set gives some slot two values may rest on either value, and nothing is said of it.
- Validate.QueryPredicatesPrograms: of several programs that cannot be fetched, which one is reported depends on the order of a map, so any may be.
- BigBang.StartAgain: begins from an empty database; starts on a database that holds more blocks are covered by the contract of a single start.
