/** The validator's sequential code: one block after the next is judged, and progress moves past it or the
    failure is recorded.

    The block that is judged is the one read back from the tables. It is the stored block only if it reads
    back as itself; the contracts say what happens in either case.
 */
module Validator {
  import opened Types
  import opened Rows
  import opened Listing
  import opened StateIndex
  import opened Tables
  import opened Reads
  import opened ChainState
  import opened Storage
  import opened Soundness
  import opened Validate
  import opened Relayer

  datatype CriticalError = LastProgressNone | ChainForks | Query(error: QueryError)

  /** A critical error ends the stream, a recoverable one restarts it. The only recoverable error here is that
      of moving progress to an address that names no stored block.
   */
  datatype InternalError = Critical(error: CriticalError) | Retry

  // ---------------------------------------------------------------- verdicts on the chain

  /** The results of the sets of block `n`, run on the replay of the chain below it. */
  ghost function BlockGas(env: Env, chain: Chain, n: int): (gas: seq<Option<Gas>>)
    requires n in chain
    ensures |gas| == |chain[n].sets|
  {
    RunGas(env, Replay(Before(chain, n)), chain[n].sets)
  }

  ghost predicate ValidAt(env: Env, chain: Chain, n: int) {
    n in chain && Passes(BlockGas(env, chain, n), |BlockGas(env, chain, n)|)
  }

  /** Block `n` is invalid, and set `i` is the first to fail or overflow. */
  ghost predicate FailsAt(env: Env, chain: Chain, n: int, i: nat) {
    && n in chain && i < |chain[n].sets|
    && Passes(BlockGas(env, chain, n), i) && !Passes(BlockGas(env, chain, n), i + 1)
  }

  /** The verdict on a block as read, which need not be the one the chain has at its number. */
  ghost predicate PassesThere(env: Env, chain: Chain, read: Block) {
    Passes(PositionGas(env, chain, read), |read.sets|)
  }

  ghost predicate FailsThere(env: Env, chain: Chain, read: Block, i: nat) {
    && i < |read.sets|
    && Passes(PositionGas(env, chain, read), i) && !Passes(PositionGas(env, chain, read), i + 1)
  }

  /** On the stored block itself the two agree. */
  lemma ThereIsAt(env: Env, chain: Chain, n: int)
    requires n in chain && chain[n].header.number == n
    ensures PassesThere(env, chain, chain[n]) <==> ValidAt(env, chain, n)
    ensures forall i: nat :: FailsThere(env, chain, chain[n], i) <==> FailsAt(env, chain, n, i)
  {
    hide RunGas, PositionGas, Passes;
    PositionsRunInSequence(env, chain, chain[n]);
  }

  /** A block is valid exactly if its sets can be run one after another on the replay of the chain below it, and it
      fails at the set where that run stops.
   */
  lemma {:induction false} VerdictsAreExecution(env: Env, chain: Chain, n: int, i: nat)
    requires n in chain
    ensures
      var ran := Execute(env, Replay(Before(chain, n)), chain[n].sets, 0);
      && (ValidAt(env, chain, n) <==> ran.Finished?)
      && (FailsAt(env, chain, n, i) <==> ran.StoppedAt? && ran.index == i)
  {
    hide Execute, RunGas, Passes, Replay, Prefix, ApplySets, GasSum;
    var base, sets := Replay(Before(chain, n)), chain[n].sets;
    ExecuteWhole(env, base, sets);
    var ran := Execute(env, base, sets, 0);
    if FailsAt(env, chain, n, i) {
      OneFailure(BlockGas(env, chain, n), i);
    } else if ran.StoppedAt? {
      OneFailure(BlockGas(env, chain, n), ran.index);
    }
  }

  /** A block is judged one way only. */
  lemma {:induction false} OneJudgement(env: Env, chain: Chain, n: int, i: nat)
    requires FailsAt(env, chain, n, i)
    ensures !ValidAt(env, chain, n)
    ensures forall j: nat :: FailsAt(env, chain, n, j) ==> j == i
  {
    var gas := BlockGas(env, chain, n);
    hide *;
    OneFailure(gas, i);
  }

  lemma {:induction false} OneJudgementThere(env: Env, chain: Chain, read: Block, i: nat)
    requires FailsThere(env, chain, read, i)
    ensures !PassesThere(env, chain, read)
    ensures forall j: nat :: FailsThere(env, chain, read, j) ==> j == i
  {
    hide PositionGas, Passes;
    OneFailure(PositionGas(env, chain, read), i);
  }

  lemma FailsInChain(env: Env, chain: Chain)
    ensures forall n, i: nat :: FailsAt(env, chain, n, i) ==> n in chain && i < |chain[n].sets|
    ensures forall n :: ValidAt(env, chain, n) ==> n in chain
  {
    hide BlockGas, Passes;
  }

  lemma OneFailure(gas: seq<Option<Gas>>, i: nat)
    requires i < |gas| && Passes(gas, i) && !Passes(gas, i + 1)
    ensures !Passes(gas, |gas|)
    ensures forall j: nat :: j < |gas| && Passes(gas, j) && !Passes(gas, j + 1) ==> j == i
  {
    hide Passes;
    if Passes(gas, |gas|) {
      PassesPrefix(gas, i + 1, |gas|);
    }
    forall j: nat | j < |gas| && Passes(gas, j) && !Passes(gas, j + 1) ensures j == i {
      if j < i {
        PassesPrefix(gas, j + 1, i);
      } else if i < j {
        PassesPrefix(gas, i + 1, j);
      }
    }
  }

  // ---------------------------------------------------------------- the next block

  /** What looking for the block numbered `n` finds: two of them are a fork, and one without sets cannot be
      read.
   */
  ghost function BlockIn(blocks: seq<Block>, log: Log, n: int): Result<Option<Block>, CriticalError> {
    var found := Where(blocks, NumberIs(n));
    if found == [] then Ok(None)
    else if |found| > 1 then Err(ChainForks)
    else if found[0].sets == [] then Err(Query(NullColumn))
    else Ok(Some(ReadBackOf(log, found[0])))
  }

  ghost predicate TwoNumbered(blocks: seq<Block>, n: int) {
    exists b, c :: b in blocks && c in blocks && b != c && b.header.number == n && c.header.number == n
  }

  /** Of distinct blocks, two with the number are a fork; with just one, that one is read. */
  lemma BlockInIs(blocks: seq<Block>, log: Log, n: int)
    requires forall i, j :: 0 <= i < j < |blocks| ==> blocks[i] != blocks[j]
    ensures BlockIn(blocks, log, n) == Err(ChainForks) <==> TwoNumbered(blocks, n)
    ensures BlockIn(blocks, log, n) == Ok(None) <==> forall b :: b in blocks ==> b.header.number != n
    ensures forall b :: b in blocks && b.header.number == n && !TwoNumbered(blocks, n) ==>
      BlockIn(blocks, log, n) == if b.sets == [] then Err(Query(NullColumn)) else Ok(Some(ReadBackOf(log, b)))
  {
    hide Where, ReadBackOf;
    var found := Where(blocks, NumberIs(n));
    forall b ensures b in found <==> b in blocks && b.header.number == n {
      WhereMember(blocks, NumberIs(n), b);
    }
    WhereDistinct(blocks, NumberIs(n));
    if |found| > 1 {
      assert found[0] in found && found[1] in found && found[0] != found[1];
    } else if found != [] {
      assert found[0] in found && forall b :: b in found ==> b == found[0];
    }
    assert found == [] <==> forall b :: b !in found;
  }

  /** What it finds where everything stored is finalized. */
  ghost function FoundIn(chain: Chain, log: Log, n: int): Result<Option<Block>, CriticalError> {
    if n !in chain then Ok(None)
    else if chain[n].sets == [] then Err(Query(NullColumn))
    else Ok(Some(ReadBackOf(log, chain[n])))
  }

  lemma OnlyOne(db: Database, n: int)
    requires db.Valid() && db.Synced()
    ensures Where(db.blocks, NumberIs(n)) == if n in db.Chain() then [db.Chain()[n]] else []
  {
    db.Rows();
    hide Rep, Tallied, Linked;
    var found := Where(db.blocks, NumberIs(n));
    forall i | 0 <= i < |found| ensures n in db.Chain() && found[i] == db.Chain()[n] {
      WhereMember(db.blocks, NumberIs(n), found[i]);
    }
    WhereDistinct(db.blocks, NumberIs(n));
    if n in db.Chain() {
      WhereMember(db.blocks, NumberIs(n), db.Chain()[n]);
    }
    assert found != [] ==> found[0] == found[|found| - 1];
  }

  /** Where everything stored is finalized, the search finds what the finalized block reads back as. */
  lemma SyncedBlockIn(db: Database, n: int)
    requires db.Valid() && db.Synced()
    ensures BlockIn(db.blocks, db.log, n) == FoundIn(db.Chain(), db.log, n)
  {
    hide Rep, Tallied, Linked, Where;
    OnlyOne(db, n);
  }

  /** On a steady database it cannot fail, and finds exactly the finalized block. */
  lemma SteadyBlockIn(db: Database, n: int)
    requires Steady(db)
    ensures BlockIn(db.blocks, db.log, n) == Ok(if n in db.Chain() then Some(db.Chain()[n]) else None)
  {
    hide Rep, Tallied, Linked, Where, ConsistentChain, ReadBackOf;
    SyncedBlockIn(db, n);
  }

  /** `get_next_block`: by the number after the last validated block's. */
  method GetNextBlock(db: Database, progress: Addr) returns (r: Result<Option<Block>, CriticalError>)
    requires db.Valid()
    ensures forall p :: p in db.blocks && db.hasher.BlockAddr(p) == progress ==> r == BlockIn(db.blocks, db.log, p.header.number + 1)
  {
    hide Rep, Tallied, Linked, Where;
    FoundAreStored(db);
    var blocks := db.GetNextBlockAddresses(progress);
    if blocks == [] {
      return Ok(None);
    }
    if |blocks| > 1 {
      return Err(ChainForks);
    }
    var block := db.GetBlock(blocks[0]);
    match block
    case Err(e) => return Err(Query(e));
    case Ok(found) => return Ok(found);
  }

  lemma FoundAreStored(db: Database)
    ensures forall n, i :: 0 <= i < |Where(db.blocks, NumberIs(n))| ==> Where(db.blocks, NumberIs(n))[i] in db.blocks
  {
    forall n, i | 0 <= i < |Where(db.blocks, NumberIs(n))| ensures Where(db.blocks, NumberIs(n))[i] in db.blocks {
      WhereMember(db.blocks, NumberIs(n), Where(db.blocks, NumberIs(n))[i]);
    }
  }

  // ---------------------------------------------------------------- validate_next_block

  /** Progress and failures, as blocks and sets. */
  datatype Marks = Marks(progress: Option<Block>, failures: FailureRows)

  ghost function MarksOf(db: Database): Marks
    requires db.Valid()
    reads db
  {
    Marks(db.Progress(), db.Failures())
  }

  /** What is done with a verdict on what the search found. It reaches the tables only if the block as read is
      one that is stored, since otherwise its address names nothing there.
   */
  ghost predicate Acts(chain: Chain, blocks: seq<Block>, found: Result<Option<Block>, CriticalError>, verdict: Outcome,
                       was: Marks, now: Marks, r: Result<bool, InternalError>)
  {
    match found
    case Err(e) => now == was && r == Err(Critical(e))
    case Ok(None) => now == was && r == Ok(false)
    case Ok(Some(read)) =>
      if verdict.Valid? then
        if read in blocks then now == was.(progress := Some(read)) && r == Ok(chain != map[] && Newest(chain) > read.header.number)
        else now == was && r == Err(Retry)
      else
        && verdict.index < |read.sets| && r == Ok(false)
        && now == was.(failures := if read in blocks then WithRow(was.failures, read, read.sets[verdict.index]) else was.failures)
  }

  ghost function WithRow(failures: FailureRows, b: Block, s: SolutionSet): FailureRows {
    if (b, s) in failures then failures else failures + [(b, s)]
  }

  /** What judging the block after `p` does, where everything stored is finalized and no set up to that block is
      ambiguous.
   */
  ghost predicate Judges(env: Env, chain: Chain, log: Log, p: Block, was: Marks, now: Marks, r: Result<bool, InternalError>) {
    var n := p.header.number + 1;
    if n !in chain then now == was && r == Ok(false)
    else if chain[n].sets == [] then now == was && r == Err(Critical(Query(NullColumn)))
    else
      var read := ReadBackOf(log, chain[n]);
      if PassesThere(env, chain, read) then
        if read == chain[n] then now == was.(progress := Some(read)) && r == Ok(Newest(chain) > n)
        else now == was && r == Err(Retry)
      else
        && r == Ok(false)
        && if read == chain[n] then now.progress == was.progress && Records(env, chain, n, was.failures, now.failures)
           else now == was
  }

  /** The failure of block `n` is on record, once, with the first set that failed. */
  ghost predicate Records(env: Env, chain: Chain, n: int, failed: FailureRows, failures: FailureRows) {
    exists i :: RecordsSet(env, chain, n, i, failed, failures)
  }

  ghost predicate RecordsSet(env: Env, chain: Chain, n: int, i: int, failed: FailureRows, failures: FailureRows) {
    i >= 0 && FailsAt(env, chain, n, i) && failures == WithRow(failed, chain[n], chain[n].sets[i])
  }

  /** Whatever sets are ambiguous: progress stays, or moves to the next block, which then reads back as itself,
      and the answer says whether the chain goes on.
   */
  ghost predicate Advances(chain: Chain, log: Log, p: Block, was: Marks, now: Marks, r: Result<bool, InternalError>) {
    var n := p.header.number + 1;
    if now.progress == was.progress then r != Ok(true)
    else n in chain && ReadsBack(log, chain[n]) && now == was.(progress := Some(chain[n])) && r == Ok(Newest(chain) > n)
  }

  /** What a block is stored as, where everything stored is finalized. */
  ghost predicate AllFinal(chain: Chain, blocks: seq<Block>) {
    forall b :: b in blocks <==> b.header.number in chain && chain[b.header.number] == b
  }

  lemma ActsAdvances(chain: Chain, blocks: seq<Block>, log: Log, p: Block, verdict: Outcome,
                     was: Marks, now: Marks, r: Result<bool, InternalError>)
    requires AllFinal(chain, blocks) && was.progress == Some(p)
    requires p.header.number + 1 in chain ==> chain[p.header.number + 1].header.number == p.header.number + 1
    requires Acts(chain, blocks, FoundIn(chain, log, p.header.number + 1), verdict, was, now, r)
    ensures Advances(chain, log, p, was, now, r)
  {
    hide ReadBackOf, Newest;
  }

  lemma ActsJudges(env: Env, chain: Chain, blocks: seq<Block>, log: Log, p: Block, verdict: Outcome,
                   was: Marks, now: Marks, r: Result<bool, InternalError>)
    requires AllFinal(chain, blocks)
    requires p.header.number + 1 in chain ==> chain[p.header.number + 1].header.number == p.header.number + 1
    requires
      var found := FoundIn(chain, log, p.header.number + 1);
      && Acts(chain, blocks, found, verdict, was, now, r)
      && (found.Ok? && found.value.Some? ==> Judged(PositionGas(env, chain, found.value.value), verdict))
    ensures Judges(env, chain, log, p, was, now, r)
  {
    hide ReadBackOf, Newest, PositionGas, Passes, FailsAt, WithRow;
    var n := p.header.number + 1;
    if n in chain && chain[n].sets != [] && verdict.Invalid? {
      var read := ReadBackOf(log, chain[n]);
      OneJudgementThere(env, chain, read, verdict.index);
      if read == chain[n] {
        ThereIsAt(env, chain, n);
        assert RecordsSet(env, chain, n, verdict.index, was.failures, now.failures);
      }
    }
  }

  ghost predicate OnRecord(b: Block, failures: FailureRows) {
    exists k :: 0 <= k < |failures| && failures[k].0 == b
  }

  /** The next block is settled, that is validated or on record as failed, exactly when it reads back as
      itself or was on record before.
   */
  lemma SettledIffReadsBack(env: Env, chain: Chain, log: Log, p: Block, was: Marks, now: Marks, r: Result<bool, InternalError>)
    requires was.progress == Some(p) && p.header.number + 1 in chain
    requires chain[p.header.number + 1].header.number == p.header.number + 1
    requires Judges(env, chain, log, p, was, now, r)
    ensures
      var b := chain[p.header.number + 1];
      now.progress == Some(b) || OnRecord(b, now.failures) <==> ReadsBack(log, b) || OnRecord(b, was.failures)
    ensures
      !ReadsBack(log, chain[p.header.number + 1]) ==> now == was
  {
    hide ReadBackOf, PassesThere, FailsAt, Newest, ValidAt;
    var n := p.header.number + 1;
    FailsInChain(env, chain);
    if ReadsBack(log, chain[n]) && now.progress == was.progress {
      var i :| RecordsSet(env, chain, n, i, was.failures, now.failures);
      Recorded(chain[n], chain[n].sets[i], was.failures, now.failures);
    }
  }

  lemma Recorded(b: Block, s: SolutionSet, failed: FailureRows, failures: FailureRows)
    requires failures == WithRow(failed, b, s)
    ensures OnRecord(b, failures)
  {
    var k :| 0 <= k < |failures| && failures[k] == (b, s);
  }

  /** `validate_next_block`, on any database: the block after the last validated one is judged as it reads back.
      The verdict is that of checking its sets between the states around their positions, unless a set up to
      there is ambiguous; blocks above it play no part. Where everything stored is finalized, this judges the
      next block of the chain.
   */
  method ValidateNextBlock(env: Env, db: Database) returns (r: Result<bool, InternalError>, ghost verdict: Outcome)
    requires db.Valid()
    modifies db`tables
    ensures db.Valid() && db.Chain() == old(db.Chain()) && db.Synced() == old(db.Synced())
    ensures old(db.Progress()).None? ==> r == Err(Critical(LastProgressNone))
    ensures r.Err? ==> db.tables == old(db.tables)
    ensures old(db.Progress()).Some? && TwoNumbered(db.blocks, old(db.Progress()).value.header.number + 1) ==>
      r == Err(Critical(ChainForks))
    ensures old(db.Progress()).Some? ==>
      var (found, chain) := (BlockIn(db.blocks, db.log, old(db.Progress()).value.header.number + 1), db.Chain());
      && Acts(chain, db.blocks, found, verdict, old(MarksOf(db)), MarksOf(db), r)
      && (found.Ok? && found.value.Some? ==> RightVerdict(env, chain, found.value.value, verdict))
    ensures old(db.Progress()).Some? && db.Synced() ==>
      var (p, chain) := (old(db.Progress()).value, db.Chain());
      && Advances(chain, db.log, p, old(MarksOf(db)), MarksOf(db), r)
      && (ClearTo(chain, AtBlock(p.header.number + 1)) ==> Judges(env, chain, db.log, p, old(MarksOf(db)), MarksOf(db), r))
  {
    hide Rep, Tallied, Linked, BlockIn, Where, Acts, Advances, Judges, RightVerdict, ClearTo, TwoNumbered;
    var progress := db.GetValidationProgress();
    verdict := Valid(0);
    if progress.None? {
      return Err(Critical(LastProgressNone)), verdict;
    }
    ghost var was, p := MarksOf(db), db.Progress().value;
    assert p in db.blocks;
    ForkIsFound(db, p.header.number + 1);
    var next := GetNextBlock(db, progress.value);
    match next {
      case Err(e) =>
        r := Err(Critical(e));
        NothingDone(db.Chain(), db.blocks, next, verdict, was, r);
      case Ok(None) =>
        r := Ok(false);
        NothingDone(db.Chain(), db.blocks, next, verdict, was, r);
      case Ok(Some(block)) =>
        r, verdict := Judge(env, db, block);
    }
    if db.Synced() {
      OnSynced(env, db, p, verdict, was, MarksOf(db), r);
    }
  }

  lemma ForkIsFound(db: Database, n: int)
    requires db.Valid()
    ensures TwoNumbered(db.blocks, n) ==> BlockIn(db.blocks, db.log, n) == Err(ChainForks)
  {
    db.Rows();
    hide Rep, Tallied, Linked, BlockIn, TwoNumbered;
    BlockInIs(db.blocks, db.log, n);
  }

  /** The verdict is right unless a set up to the block's last position is ambiguous. */
  ghost predicate RightVerdict(env: Env, chain: Chain, read: Block, verdict: Outcome) {
    ClearTo(chain, UpTo(read.header.number, |read.sets|)) ==> Judged(PositionGas(env, chain, read), verdict)
  }

  lemma NothingDone(chain: Chain, blocks: seq<Block>, found: Result<Option<Block>, CriticalError>, verdict: Outcome,
                    was: Marks, r: Result<bool, InternalError>)
    requires (found.Err? && r == Err(Critical(found.error))) || (found == Ok(None) && r == Ok(false))
    ensures Acts(chain, blocks, found, verdict, was, was, r)
  {
  }

  lemma OnSynced(env: Env, db: Database, p: Block, verdict: Outcome, was: Marks, now: Marks, r: Result<bool, InternalError>)
    requires db.Valid() && db.Synced() && was.progress == Some(p)
    requires
      var found := BlockIn(db.blocks, db.log, p.header.number + 1);
      && Acts(db.Chain(), db.blocks, found, verdict, was, now, r)
      && (found.Ok? && found.value.Some? ==> RightVerdict(env, db.Chain(), found.value.value, verdict))
    ensures Advances(db.Chain(), db.log, p, was, now, r)
    ensures ClearTo(db.Chain(), AtBlock(p.header.number + 1)) ==> Judges(env, db.Chain(), db.log, p, was, now, r)
  {
    hide Rep, Tallied, Linked, BlockIn, ReadBackOf, Acts, Advances, Judges, ClearTo, Judged, PositionGas;
    db.Rows();
    AllIsFinal(db);
    var n := p.header.number + 1;
    SyncedBlockIn(db, n);
    ActsAdvances(db.Chain(), db.blocks, db.log, p, verdict, was, now, r);
    if ClearTo(db.Chain(), AtBlock(n)) {
      if n in db.Chain() {
        ClearWhole(db.Chain(), n, |db.Chain()[n].sets|);
      }
      ActsJudges(env, db.Chain(), db.blocks, db.log, p, verdict, was, now, r);
    }
  }

  lemma ClearWhole(chain: Chain, n: int, k: nat)
    requires ClearTo(chain, AtBlock(n))
    ensures ClearTo(chain, UpTo(n, k))
  {
    hide Consistent;
    forall m, i | m in chain && 0 <= i < |chain[m].sets| && Admits(UpTo(n, k), m, i) ensures Consistent(chain[m].sets[i]) {
      assert Admits(AtBlock(n), m, i);
    }
  }

  lemma AllIsFinal(db: Database)
    requires db.Valid() && db.Synced()
    ensures AllFinal(db.Chain(), db.blocks)
  {
    hide Rep, Tallied, Linked;
  }

  /** From the block on: validate it, and act on the outcome. */
  method Judge(env: Env, db: Database, block: Block) returns (r: Result<bool, InternalError>, ghost verdict: Outcome)
    requires db.Valid()
    modifies db`tables
    ensures db.Valid() && db.Chain() == old(db.Chain()) && db.Synced() == old(db.Synced())
    ensures Acts(db.Chain(), db.blocks, Ok(Some(block)), verdict, old(MarksOf(db)), MarksOf(db), r)
    ensures r.Err? ==> db.tables == old(db.tables)
    ensures RightVerdict(env, db.Chain(), block, verdict)
  {
    hide Rep, Tallied, Linked, Newest, PositionGas, RunGas, Judged, ClearTo;
    var outcome := ValidateOnDisk(env, db, block);
    verdict := outcome;
    match outcome
    case Valid(_) =>
      r := MoveProgress(db, block);
    case Invalid(_, index) =>
      RecordFailure(db, block, index);
      r := Ok(false);
  }

  lemma NamesNothing(db: Database, b: Block)
    requires db.Valid()
    ensures b !in db.blocks ==> forall x :: x in db.blocks ==> db.hasher.BlockAddr(x) != db.hasher.BlockAddr(b)
  {
    hide Rep, Tallied, Linked;
    forall x | x in db.blocks && db.hasher.BlockAddr(x) == db.hasher.BlockAddr(b) ensures x == b {
      db.hasher.BlockAddrInjective(x, b);
    }
  }

  /** The arm for a valid outcome: move progress, then look whether the chain goes on. */
  method MoveProgress(db: Database, block: Block) returns (r: Result<bool, InternalError>)
    requires db.Valid()
    modifies db`tables
    ensures db.Valid() && db.Chain() == old(db.Chain()) && db.Synced() == old(db.Synced()) && db.Failures() == old(db.Failures())
    ensures
      if block in db.blocks then
        && db.Progress() == Some(block)
        && r == Ok(db.Chain() != map[] && Newest(db.Chain()) > block.header.number)
      else db.tables == old(db.tables) && r == Err(Retry)
  {
    hide Rep, Tallied, Linked, Newest;
    NamesNothing(db, block);
    var ok := db.UpdateValidationProgress(db.hasher.BlockAddr(block));
    if !ok {
      return Err(Retry);
    }
    var latest := GetBlockProgress(db);
    return Ok(latest.Some? && latest.value.lastNumber > block.header.number);
  }

  /** The arm for an invalid outcome. */
  method RecordFailure(db: Database, block: Block, index: nat)
    requires db.Valid() && index < |block.sets|
    modifies db`tables
    ensures db.Valid() && db.Chain() == old(db.Chain()) && db.Synced() == old(db.Synced()) && db.Progress() == old(db.Progress())
    ensures db.Failures() == if block in db.blocks then WithRow(old(db.Failures()), block, block.sets[index]) else old(db.Failures())
  {
    hide Rep, Tallied, Linked, ChainOf, LinksQuery;
    NamesNothing(db, block);
    if block in db.blocks {
      db.StoredLinks(block);
    }
    db.InsertFailedBlock(db.hasher.BlockAddr(block), db.hasher.ofSet(block.sets[index]));
  }

  // ---------------------------------------------------------------- a batch

  /** Progress has moved from `p` to `q`, past blocks that read back as themselves, and that are valid unless a
      set up to them is ambiguous.
   */
  ghost predicate Moved(env: Env, chain: Chain, log: Log, p: Block, q: Block) {
    && p.header.number <= q.header.number
    && q.header.number in chain && chain[q.header.number] == q
    && forall n :: p.header.number < n <= q.header.number ==>
         n in chain && ReadsBack(log, chain[n]) && (ClearTo(chain, AtBlock(n)) ==> ValidAt(env, chain, n))
  }

  /** Unless a set up to the block after `q` is ambiguous, it stopped at the newest block, or below an invalid one
      that is now on record, or below one that does not read back as itself, which is an error unless it fails,
      and then is forgotten.
   */
  ghost predicate Batched(env: Env, chain: Chain, log: Log, p: Block, failed: FailureRows,
                          q: Block, failures: FailureRows, r: Result<(), InternalError>)
    requires chain != map[]
  {
    && Moved(env, chain, log, p, q)
    && (ClearTo(chain, AtBlock(q.header.number + 1)) ==> StoppedAt(env, chain, log, failed, q, failures, r))
  }

  ghost predicate StoppedAt(env: Env, chain: Chain, log: Log, failed: FailureRows,
                            q: Block, failures: FailureRows, r: Result<(), InternalError>)
    requires chain != map[]
  {
    if q.header.number == Newest(chain) then failures == failed && r == Ok(())
    else
      var n := q.header.number + 1;
      && n in chain
      && if ReadsBack(log, chain[n]) then Records(env, chain, n, failed, failures) && r == Ok(())
         else
           && failures == failed
           && r == if chain[n].sets == [] then Err(Critical(Query(NullColumn)))
                   else if PassesThere(env, chain, ReadBackOf(log, chain[n])) then Err(Retry) else Ok(())
  }

  /** A batch that reaches the newest block leaves the record alone. Otherwise the next block, if it reads back, has
      gone on record with the set that fails, and if it does not, nothing has.
   */
  lemma BatchRecords(env: Env, chain: Chain, log: Log, p: Block, failed: FailureRows,
                     q: Block, failures: FailureRows, r: Result<(), InternalError>)
    requires chain != map[] && Batched(env, chain, log, p, failed, q, failures, r)
    requires ClearTo(chain, AtBlock(q.header.number + 1))
    ensures q.header.number == Newest(chain) ==> r == Ok(()) && failures == failed
    ensures q.header.number != Newest(chain) ==>
      var n := q.header.number + 1;
      n in chain && if ReadsBack(log, chain[n]) then r == Ok(()) && Records(env, chain, n, failed, failures) else failures == failed
  {
    hide Moved, ClearTo, ReadsBack, Records, PassesThere, ReadBackOf;
  }

  /** The batch reaches the newest block exactly when every block it had to judge reads back as itself and is
      valid.
   */
  lemma BatchCompletesIffValid(env: Env, chain: Chain, log: Log, p: Block, failed: FailureRows,
                               q: Block, failures: FailureRows, r: Result<(), InternalError>)
    requires chain != map[] && Batched(env, chain, log, p, failed, q, failures, r)
    requires ClearTo(chain, AtBlock(q.header.number + 1))
    ensures q.header.number == Newest(chain) <==>
      forall n :: n in chain && n > p.header.number ==> ReadsBack(log, chain[n]) && ValidAt(env, chain, n)
  {
    hide ValidAt, FailsAt, ReadsBack, PassesThere, ClearTo;
    forall n | n <= q.header.number ensures ClearTo(chain, AtBlock(n)) {
      ClearLower(chain, n, q.header.number + 1);
    }
    if q.header.number != Newest(chain) && ReadsBack(log, chain[q.header.number + 1]) {
      var n := q.header.number + 1;
      var i :| RecordsSet(env, chain, n, i, failed, failures);
      OneJudgement(env, chain, n, i);
    }
  }

  lemma ClearLower(chain: Chain, n: int, m: int)
    requires n <= m && ClearTo(chain, AtBlock(m))
    ensures ClearTo(chain, AtBlock(n))
  {
    hide Consistent;
    forall x, i | x in chain && 0 <= i < |chain[x].sets| && Admits(AtBlock(n), x, i) ensures Consistent(chain[x].sets[i]) {
      assert Admits(AtBlock(m), x, i);
    }
  }

  /** One judgement goes on with the batch, or ends it. */
  lemma BatchStep(env: Env, chain: Chain, log: Log, k: nat, p: Block, failed: FailureRows,
                  q: Block, was: Marks, now: Marks, r: Result<bool, InternalError>)
    requires Interval(chain, k) && chain != map[] && Moved(env, chain, log, p, q) && was == Marks(Some(q), failed)
    requires Advances(chain, log, q, was, now, r)
    requires ClearTo(chain, AtBlock(q.header.number + 1)) ==> Judges(env, chain, log, q, was, now, r)
    ensures now.progress.Some? && now.progress.value.header.number >= q.header.number
    ensures Moved(env, chain, log, p, now.progress.value)
    ensures r == Ok(true) ==> now.failures == failed && now.progress.value.header.number > q.header.number
    ensures r != Ok(true) ==>
      Batched(env, chain, log, p, failed, now.progress.value, now.failures, if r.Ok? then Ok(()) else Err(r.error))
  {
    hide ValidAt, FailsAt, Records, ReadBackOf, PassesThere, ClearTo;
    NewestOfInterval(chain, k);
    if q.header.number + 1 in chain {
      ThereIsAt(env, chain, q.header.number + 1);
    }
  }

  lemma ProgressIsFinalized(db: Database)
    requires db.Valid() && db.Synced() && db.Progress().Some?
    ensures
      var (p, chain) := (db.Progress().value, db.Chain());
      p.header.number in chain && chain[p.header.number] == p
  {
    hide Rep, Tallied, Linked, ConsistentChain;
  }

  ghost predicate InBatch(env: Env, db: Database, p: Block, failed: FailureRows)
    requires db.Valid()
    reads db
  {
    && db.Progress().Some? && db.Chain() != map[]
    && Moved(env, db.Chain(), db.log, p, db.Progress().value) && db.Failures() == failed
  }

  ghost predicate BatchDone(env: Env, db: Database, p: Block, failed: FailureRows, r: Result<(), InternalError>)
    requires db.Valid()
    reads db
  {
    && db.Progress().Some? && db.Chain() != map[]
    && Batched(env, db.Chain(), db.log, p, failed, db.Progress().value, db.Failures(), r)
  }

  ghost function Left(db: Database, k: nat): int
    requires db.Valid()
    reads db
  {
    if db.Progress().Some? then k - db.Progress().value.header.number else 0
  }

  lemma MovedNowhere(env: Env, chain: Chain, log: Log, p: Block)
    requires p.header.number in chain && chain[p.header.number] == p
    ensures chain != map[] && Moved(env, chain, log, p, p)
  {
  }

  lemma InInterval(env: Env, chain: Chain, log: Log, k: nat, p: Block, q: Block)
    requires Interval(chain, k) && Moved(env, chain, log, p, q)
    ensures q.header.number < k
  {
  }

  /** One turn of the loop. */
  method BatchTurn(env: Env, db: Database, ghost k: nat, ghost begun: Option<Block>, ghost failed: FailureRows)
    returns (r: Result<bool, InternalError>)
    requires db.Valid() && db.Synced() && Interval(db.Chain(), k)
    requires begun.Some? ==> InBatch(env, db, begun.value, failed)
    requires begun.None? ==> db.Progress().None?
    modifies db`tables
    ensures db.Valid() && db.Synced() && db.Chain() == old(db.Chain())
    ensures begun.None? ==> r == Err(Critical(LastProgressNone)) && db.tables == old(db.tables)
    ensures begun.Some? && r == Ok(true) ==> InBatch(env, db, begun.value, failed) && 0 <= Left(db, k) < old(Left(db, k))
    ensures begun.Some? && r != Ok(true) ==> BatchDone(env, db, begun.value, failed, if r.Ok? then Ok(()) else Err(r.error))
    ensures begun.Some? && r != Ok(true) ==> 0 <= Left(db, k) <= old(Left(db, k))
  {
    hide Rep, Tallied, Linked, Moved, Batched, Interval, Judges, Advances, Acts, RightVerdict, BlockIn, ClearTo;
    ghost var was := MarksOf(db);
    ghost var verdict;
    r, verdict := ValidateNextBlock(env, db);
    if begun.Some? {
      BatchStep(env, db.Chain(), db.log, k, begun.value, failed, was.progress.value, was, MarksOf(db), r);
      InInterval(env, db.Chain(), db.log, k, begun.value, db.Progress().value);
    }
  }

  /** The inner loop of the validation stream, on a chain without gaps: it ends, past valid blocks only, at the
      newest block, or below one that is invalid and now on record, or below one that does not read back. What it
      says of a block supposes only that no set up to that block is ambiguous.
   */
  method ValidateBatch(env: Env, db: Database, ghost k: nat) returns (r: Result<(), InternalError>)
    requires db.Valid() && db.Synced() && Interval(db.Chain(), k)
    modifies db`tables
    ensures db.Valid() && db.Synced() && db.Chain() == old(db.Chain())
    ensures old(db.Progress()).None? ==> r == Err(Critical(LastProgressNone)) && db.tables == old(db.tables)
    ensures old(db.Progress()).Some? ==> BatchDone(env, db, old(db.Progress()).value, old(db.Failures()), r)
  {
    hide Rep, Tallied, Linked, Moved, Batched, Interval;
    if db.Progress().Some? {
      ProgressIsFinalized(db);
      MovedNowhere(env, db.Chain(), db.log, db.Progress().value);
      InInterval(env, db.Chain(), db.log, k, db.Progress().value, db.Progress().value);
    }
    ghost var begun, failed := db.Progress(), db.Failures();
    var more := true;
    while more
      invariant db.Valid() && db.Synced() && db.Chain() == old(db.Chain())
      invariant begun.None? ==> more && db.tables == old(db.tables)
      invariant begun.Some? ==> Left(db, k) >= 0
      invariant begun.Some? && more ==> InBatch(env, db, begun.value, failed)
      invariant begun.Some? && !more ==> BatchDone(env, db, begun.value, failed, Ok(()))
      decreases if begun.Some? then Left(db, k) else 0, more
    {
      var next := BatchTurn(env, db, k, begun, failed);
      match next
      case Err(e) => return Err(e);
      case Ok(left) => more := left;
    }
    return Ok(());
  }

  // ---------------------------------------------------------------- a block that is forgotten

  ghost predicate Rejects(env: Env) {
    forall s, preds, programs, pre, post :: env.vm.check(s, preds, programs, pre, post) == None
  }

  /** The relayer stores block 1 with the same set twice, and the set fails. It is judged, as read, and fails;
      but neither is progress moved nor a failure recorded, and the answer is that there is nothing left.
   */
  method RepeatedSetIsForgotten(env: Env, hasher: Hasher, first: Block, s: SolutionSet, now: Timestamp)
    returns (db: Database, r: Result<bool, InternalError>)
    requires hasher.CollisionFree() && Rejects(env)
    requires first.header.number == 0 && ConsistentBlock(first)
    requires Consistent(s) && !NothingToRepeat(s)
    ensures fresh(db) && db.Valid() && db.Synced()
    ensures
      var b := Block(Header(1, now), [s, s]);
      && db.Chain() == map[0 := first, 1 := b] && FailsAt(env, db.Chain(), 1, 0)
      && r == Ok(false) && MarksOf(db) == Marks(Some(first), [])
  {
    hide Rep, Tallied, Linked, ConsistentChain, NothingToRepeat, FailsAt, PassesThere, ReadBackOf, Acts, RightVerdict, BlockIn, ClearTo;
    var b := Block(Header(1, now), [s, s]);
    assert ConsistentBlock(b);
    db := Started(hasher, first, b);
    ReadBackIsSame(db.log, b);
    assert b.sets[0] == s && b.sets[1] == s && multiset(b.sets)[s] == 2;
    RejectedFails(env, db.Chain(), b, ReadBackOf(db.log, b));
    ConsistentIsClear(db.Chain(), AtBlock(1));
    ghost var verdict;
    r, verdict := ValidateNextBlock(env, db);
  }

  /** A database with two blocks, of which the first is where validation stands. */
  method Started(hasher: Hasher, first: Block, second: Block) returns (db: Database)
    requires hasher.CollisionFree() && first.header.number == 0 && second.header.number == 1
    requires ConsistentBlock(first) && ConsistentBlock(second)
    ensures fresh(db) && db.Valid() && db.Synced() && ConsistentChain(db.Chain()) && db.Chain() == map[0 := first, 1 := second]
    ensures db.log == multiset(first.sets) + multiset(second.sets) && MarksOf(db) == Marks(Some(first), [])
  {
    hide Rep, Tallied, Linked, ConsistentBlock, Appends, Stored, SetsOf, Wrote;
    db := new Database(hasher);
    EmptyNow(db);
    ghost var empty := Now(db);
    WroteNothing(empty);
    var ok := WriteAnother(db, first, empty, []);
    assert [] + [first] == [first];
    ok := WriteAnother(db, second, empty, [first]);
    TwoWritten(db, empty, first, second);
    ok := db.UpdateValidationProgress(hasher.BlockAddr(first));
  }

  lemma EmptyNow(db: Database)
    requires db.Valid() && db.tables == EMPTY && db.blocks == [] && db.log == multiset{}
    ensures Now(db) == Moment(EMPTY, map[], [], multiset{}, true, None, [])
  {
    assert db.Chain() == map[];
  }

  lemma TwoWritten(db: Database, empty: Moment, first: Block, second: Block)
    requires db.Valid() && empty == Moment(EMPTY, map[], [], multiset{}, true, None, [])
    requires first.header.number == 0 && second.header.number == 1
    requires Wrote(empty, Now(db), [first] + [second]) && db.Chain() == map[][0 := first][1 := second]
    requires ConsistentBlock(first) && ConsistentBlock(second)
    ensures db.Valid() && db.Synced() && ConsistentChain(db.Chain()) && first in db.blocks && db.Chain() == map[0 := first, 1 := second]
    ensures db.log == multiset(first.sets) + multiset(second.sets) && db.tables.failed == [] && db.Failures() == []
  {
    hide Rep, Tallied, Linked, ConsistentBlock;
    var both := [first] + [second];
    assert both[..1] == [first] && [first][..0] == [] && both[1..] == [second] && [second][1..] == [];
    assert first != second && Stored([], [first]) == [first];
    assert Stored([], both) == [first] + [second];
    assert SetsOf([second]) == multiset(second.sets) + SetsOf([]);
    assert SetsOf(both) == multiset(first.sets) + (multiset(second.sets) + multiset{});
    assert first in db.blocks;
  }

  lemma RejectedFails(env: Env, chain: Chain, b: Block, read: Block)
    requires Rejects(env) && b.sets != [] && b.header.number in chain && chain[b.header.number] == b
    requires read.header == b.header && |read.sets| == |b.sets|
    ensures FailsAt(env, chain, b.header.number, 0) && !PassesThere(env, chain, read)
  {
    assert BlockGas(env, chain, b.header.number)[0] == None;
    assert PositionGas(env, chain, read)[0] == None;
  }
}
