/** The relayer: following a remote stream of blocks into the local database, across stream cuts, errors
    and restarts.

    The stream is a parameter. An item is a block, or a failure after which the run restarts: a broken
    connection, a block that does not decode, or a database found locked when the block is written. A
    stream that is cut, by a shutdown or a crash between two transactions, is a shorter stream.
 */
module Relayer {
  import opened Types
  import opened ChainState
  import opened Listing
  import opened Tables
  import opened Storage
  import opened Soundness

  datatype Item = Received(block: Block) | Broken

  /** How a run over one stream ends. Only `Recoverable` restarts it. */
  datatype End = Done | Recoverable | Fork | WriteFailed

  datatype BlockProgress = BlockProgress(lastNumber: Word, lastAddress: Addr)

  function SaturatingNext(n: Word): Word {
    if n == WORD_MAX then WORD_MAX else n + 1
  }

  // ---------------------------------------------------------------- what a run does to the chain

  /** The chain a run leaves, how the run ended, and the blocks it wrote on the way. */
  datatype Ran = Ran(chain: Chain, end: End, written: seq<Block>)

  function Having(written: seq<Block>, r: Ran): Ran {
    r.(written := written + r.written)
  }

  /** Append the blocks of a stream for as long as each has the number expected next. */
  ghost function Follow(chain: Chain, next: Word, stream: seq<Item>): Ran
    decreases |stream|
  {
    if stream == [] then Ran(chain, Done, [])
    else
      match stream[0]
      case Broken => Ran(chain, Recoverable, [])
      case Received(b) =>
        if b.header.number != next then Ran(chain, Recoverable, [])
        else if next in chain then Ran(chain, WriteFailed, [])
        else Having([b], Follow(chain[next := b], SaturatingNext(next), stream[1..]))
  }

  /** What following comes to: the blocks at the head of the stream whose numbers go up by one from `next`, up to the
      greatest number, each finalized in turn. It ends in order with the stream; in a restart at a broken item or a
      block out of sequence; and in a failed write at a block in sequence whose number is taken.
   */
  lemma {:induction false} FollowIs(chain: Chain, next: Word, stream: seq<Item>)
    ensures
      var r := Follow(chain, next, stream);
      var k := |r.written|;
      && k <= |stream| && Appends(chain, r.written, r.chain)
      && (forall i :: 0 <= i < k ==>
            stream[i] == Received(r.written[i]) && r.written[i].header.number == if next + i <= WORD_MAX then next + i else WORD_MAX)
      && var expected := if next + k <= WORD_MAX then next + k else WORD_MAX;
         if k == |stream| then r.end == Done
         else if stream[k].Broken? || stream[k].block.header.number != expected then r.end == Recoverable
         else r.end == WriteFailed && expected in r.chain
    decreases |stream|
  {
    hide Appends;
    AppendsNone(chain);
    if stream != [] && stream[0].Received? && stream[0].block.header.number == next && next !in chain {
      var b := stream[0].block;
      var rest := Follow(chain[next := b], SaturatingNext(next), stream[1..]);
      FollowIs(chain[next := b], SaturatingNext(next), stream[1..]);
      assert Follow(chain, next, stream) == Having([b], rest);
      AppendsFirst(chain, b, rest.written, rest.chain);
    }
  }

  lemma AppendsNone(chain: Chain)
    ensures Appends(chain, [], chain)
  {
  }

  lemma AppendsFirst(chain: Chain, b: Block, rest: seq<Block>, more: Chain)
    requires b.header.number !in chain && Appends(chain[b.header.number := b], rest, more)
    ensures Appends(chain, [b] + rest, more)
  {
    assert ([b] + rest)[1..] == rest;
  }

  /** One run: the stream has to begin with the newest block, if there is one. */
  ghost function Run(chain: Chain, stream: seq<Item>): Ran {
    if chain == map[] then Follow(chain, 0, stream)
    else if stream == [] then Ran(chain, Fork, [])
    else
      var last := chain[Newest(chain)];
      match stream[0]
      case Broken => Ran(chain, Recoverable, [])
      case Received(b) =>
        if b != last then Ran(chain, Fork, []) else Follow(chain, SaturatingNext(last.header.number), stream[1..])
  }

  /** The rows of the block table after these blocks have been stored in order. */
  function Stored(blocks: seq<Block>, written: seq<Block>): seq<Block> {
    if written == [] then blocks
    else
      var stored, b := Stored(blocks, written[..|written| - 1]), written[|written| - 1];
      if b in stored then stored else stored + [b]
  }

  // ---------------------------------------------------------------- the code

  /** `get_block_progress`. */
  method GetBlockProgress(db: Database) returns (r: Option<BlockProgress>)
    requires db.Valid()
    ensures r == if db.Chain() == map[] then None
                 else Some(BlockProgress(Newest(db.Chain()), db.hasher.BlockAddr(db.Chain()[Newest(db.Chain())])))
  {
    hide Rep, Tallied, Linked;
    db.Rows();
    var a := db.GetLatestFinalized();
    if a.None? {
      return None;
    }
    var header := db.GetBlockHeader(a.value);
    ghost var last := db.Chain()[Newest(db.Chain())];
    assert last in db.blocks;
    if header.None? {
      return None;
    }
    return Some(BlockProgress(header.value.number, a.value));
  }

  /** `check_block_fork`: true if the first block of the stream is not the last one synced. */
  function IsFork(hasher: Hasher, block: Option<Block>, progress: BlockProgress): (fork: bool)
    ensures hasher.CollisionFree() ==>
      forall last :: hasher.BlockAddr(last) == progress.lastAddress ==> (fork <==> block != Some(last))
  {
    assert hasher.CollisionFree() && block.Some? ==>
      forall last :: hasher.BlockAddr(last) == hasher.BlockAddr(block.value) ==> last == block.value by {
      if hasher.CollisionFree() && block.Some? {
        forall last | hasher.BlockAddr(last) == hasher.BlockAddr(block.value) ensures last == block.value {
          hasher.BlockAddrInjective(last, block.value);
        }
      }
    }
    match block
    case None => true
    case Some(b) => hasher.BlockAddr(b) != progress.lastAddress
  }

  /** A database at one moment. */
  datatype Moment = Moment(
    tables: Tables, chain: Chain, blocks: seq<Block>, log: Log, synced: bool, progress: Option<Block>, failures: FailureRows)

  ghost function Now(db: Database): Moment
    requires db.Valid()
    reads db
  {
    Moment(db.tables, db.Chain(), db.blocks, db.log, db.Synced(), db.Progress(), db.Failures())
  }

  /** Between two moments these blocks were written, and nothing else was. If there are none, no row of any
      table has changed.
   */
  ghost predicate Wrote(before: Moment, after: Moment, written: seq<Block>) {
    && Appends(before.chain, written, after.chain)
    && after.blocks == Stored(before.blocks, written) && after.log == before.log + SetsOf(written)
    && after.tables.progress == before.tables.progress && after.tables.failed == before.tables.failed
    && after.progress == before.progress && after.failures == before.failures
    && (written == [] ==> after == before)
    && (before.synced ==> after.synced)
  }

  /** Writing leaves progress and failures alone, in their tables and in what they mean. */
  lemma WroteMarks(before: Moment, after: Moment, written: seq<Block>)
    requires Wrote(before, after, written)
    ensures after.tables.progress == before.tables.progress && after.tables.failed == before.tables.failed
    ensures after.progress == before.progress && after.failures == before.failures
  {
  }

  lemma WroteNothing(a: Moment)
    ensures Wrote(a, a, [])
  {
    assert a.log + SetsOf([]) == a.log;
  }

  lemma WroteThen(a: Moment, b: Moment, c: Moment, xs: seq<Block>, ys: seq<Block>)
    requires Wrote(a, b, xs) && Wrote(b, c, ys)
    ensures Wrote(a, c, xs + ys)
  {
    AppendsThen(a.chain, xs, b.chain, ys, c.chain);
    StoredThen(a.blocks, xs, ys);
    assert xs + ys == [] ==> xs == [] && ys == [];
    hide Appends, Stored, SetsOf;
  }

  lemma {:induction false} StoredThen(blocks: seq<Block>, xs: seq<Block>, ys: seq<Block>)
    ensures Stored(Stored(blocks, xs), ys) == Stored(blocks, xs + ys)
  {
    if ys == [] {
      assert xs + ys == xs;
    } else {
      StoredThen(blocks, xs, ys[..|ys| - 1]);
      assert (xs + ys)[..|xs + ys| - 1] == xs + ys[..|ys| - 1];
    }
  }

  /** A steady database stays steady exactly when each written block fits what has been stored before it. */
  lemma WroteSteadyIff(db: Database, before: Moment, written: seq<Block>)
    requires db.Valid() && Wrote(before, Now(db), written)
    requires before.synced && Sound(before.chain, before.log) && Covers(before.log, before.chain)
    ensures Steady(db) <==> AllFit(before.log, written)
  {
    hide Rep, Tallied, Linked, Sound, Covers, AllFit, Appends;
    AppendsSoundIff(before.chain, before.log, written, db.Chain());
  }

  /** One write of the loop. */
  method WriteAnother(db: Database, b: Block, ghost before: Moment, ghost done: seq<Block>) returns (ok: bool)
    requires db.Valid() && Wrote(before, Now(db), done)
    modifies db
    ensures db.Valid()
    ensures ok <==> b.header.number !in old(db.Chain())
    ensures ok ==> db.Chain() == old(db.Chain())[b.header.number := b] && Wrote(before, Now(db), done + [b])
    ensures !ok ==> Now(db) == old(Now(db))
  {
    hide Rep, Tallied, Linked, Appends, Stored, SetsOf;
    ghost var mid := Now(db);
    ok := db.WriteBlock(b);
    if ok {
      WroteOne(mid, Now(db), b);
      WroteThen(before, mid, Now(db), done, [b]);
    }
  }

  lemma WroteOne(a: Moment, c: Moment, b: Block)
    requires b.header.number !in a.chain && c.chain == a.chain[b.header.number := b]
    requires c.blocks == (if b in a.blocks then a.blocks else a.blocks + [b]) && c.log == a.log + multiset(b.sets)
    requires c.tables.progress == a.tables.progress && c.tables.failed == a.tables.failed && (a.synced ==> c.synced)
    requires c.progress == a.progress && c.failures == a.failures
    ensures Wrote(a, c, [b])
  {
    assert [b][1..] == [] && [b][..0] == [];
    assert SetsOf([b]) == multiset(b.sets) + multiset{};
  }

  /** `run_blocks` with `sync_blocks`: besides what the run says of the chain, every block that is written is
      stored and notified once, and nothing else changes in any table. A steady database stays steady exactly
      when each written block fits what has been stored before it.
   */
  method RunBlocks(db: Database, stream: seq<Item>) returns (end: End, notified: nat)
    requires db.Valid()
    modifies db
    ensures db.Valid()
    ensures
      var r := Run(old(db.Chain()), stream);
      && db.Chain() == r.chain && end == r.end && notified == |r.written| && Wrote(old(Now(db)), Now(db), r.written)
    ensures db.tables.progress == old(db.tables.progress) && db.tables.failed == old(db.tables.failed)
    ensures db.Progress() == old(db.Progress()) && db.Failures() == old(db.Failures())
    ensures end == Fork ==> db.tables == old(db.tables) && db.blocks == old(db.blocks) && db.log == old(db.log)
    ensures old(Steady(db)) ==> (Steady(db) <==> AllFit(old(db.log), Run(old(db.Chain()), stream).written))
  {
    hide Rep, Tallied, Linked, Wrote, Sound, AllFit;
    ghost var before := Now(db);
    WroteNothing(before);
    LogCovers(db);
    AllFitNothing(db.log);
    ForkIff(db.Chain(), stream);
    var progress := GetBlockProgress(db);
    var rest := stream;
    var next: Word := 0;
    if progress.Some? {
      db.Rows();
      ghost var last := db.Chain()[Newest(db.Chain())];
      if rest != [] && rest[0].Broken? {
        return Recoverable, 0;
      }
      if IsFork(db.hasher, if rest == [] then None else Some(rest[0].block), progress.value) {
        return Fork, 0;
      }
      next, rest := SaturatingNext(progress.value.lastNumber), rest[1..];
    }
    end, notified := Append(db, next, rest);
    ghost var r := Run(old(db.Chain()), stream);
    WroteMarks(before, Now(db), r.written);
    if old(Steady(db)) {
      WroteSteadyIff(db, before, r.written);
    }
  }

  lemma AllFitNothing(log: Log)
    ensures AllFit(log, [])
  {
  }

  /** The `try_for_each` of `sync_blocks`. */
  method Append(db: Database, start: Word, stream: seq<Item>) returns (end: End, notified: nat)
    requires db.Valid()
    modifies db
    ensures db.Valid()
    ensures
      var r := Follow(old(db.Chain()), start, stream);
      && db.Chain() == r.chain && end == r.end && notified == |r.written| && Wrote(old(Now(db)), Now(db), r.written)
  {
    hide Rep, Tallied, Linked, Wrote, Follow, Having;
    notified := 0;
    ghost var done: seq<Block> := [];
    WroteNothing(Now(db));
    FollowFrom(db.Chain(), start, stream, stream, 0, []);
    var next := start;
    for i := 0 to |stream|
      invariant db.Valid() && Wrote(old(Now(db)), Now(db), done) && notified == |done|
      invariant Follow(old(db.Chain()), start, stream) == Having(done, Follow(db.Chain(), next, stream[i..]))
    {
      FollowFrom(db.Chain(), next, stream[i..], stream, i, done);
      match stream[i]
      case Broken => return Recoverable, notified;
      case Received(b) =>
        var sequential := b.header.number == next;
        next := SaturatingNext(b.header.number);
        if !sequential {
          return Recoverable, notified;
        }
        var ok := WriteAnother(db, b, old(Now(db)), done);
        if !ok {
          return WriteFailed, notified;
        }
        done := done + [b];
        notified := notified + 1;
    }
    FollowFrom(db.Chain(), next, stream[|stream|..], stream, |stream|, done);
    return Done, notified;
  }

  /** One item of what is left of a stream. */
  lemma FollowFrom(chain: Chain, next: Word, rest: seq<Item>, stream: seq<Item>, i: nat, done: seq<Block>)
    requires i <= |stream| && rest == stream[i..]
    ensures stream == stream[0..] && Having([], Follow(chain, next, rest)) == Follow(chain, next, rest)
    ensures
      var r := Having(done, Follow(chain, next, rest));
      if i == |stream| then r == Ran(chain, Done, done)
      else if stream[i].Broken? || stream[i].block.header.number != next then r == Ran(chain, Recoverable, done)
      else if next in chain then r == Ran(chain, WriteFailed, done)
      else r == Having(done + [stream[i].block], Follow(chain[next := stream[i].block], SaturatingNext(next), stream[i + 1..]))
  {
    assert done + [] == done;
    if i < |stream| {
      assert rest[1..] == stream[i + 1..];
      if stream[i].Received? {
        var r := Follow(chain[next := stream[i].block], SaturatingNext(next), stream[i + 1..]);
        assert done + ([stream[i].block] + r.written) == (done + [stream[i].block]) + r.written;
      }
    }
  }

  /** `run`: restart on a recoverable error, with a new stream; stop on anything else. */
  method Supervise(db: Database, streams: seq<seq<Item>>) returns (end: End)
    requires db.Valid()
    modifies db
    ensures db.Valid()
    ensures
      var r := Restarted(old(db.Chain()), streams);
      db.Chain() == r.chain && end == r.end && Wrote(old(Now(db)), Now(db), r.written)
    ensures db.tables.progress == old(db.tables.progress) && db.tables.failed == old(db.tables.failed)
    ensures db.Progress() == old(db.Progress()) && db.Failures() == old(db.Failures())
    ensures old(Steady(db)) ==> (Steady(db) <==> AllFit(old(db.log), Restarted(old(db.Chain()), streams).written))
  {
    hide Rep, Tallied, Linked, Run, Wrote, Sound, AllFit, Restarted, Having;
    ghost var before := Now(db);
    ghost var done: seq<Block> := [];
    WroteNothing(before);
    LogCovers(db);
    RestartedFrom(db.Chain(), streams, 0, []);
    end := Recoverable;
    var i := 0;
    while i < |streams| && end == Recoverable
      invariant i <= |streams| && db.Valid() && Wrote(before, Now(db), done)
      invariant Restarted(before.chain, streams) ==
        if end == Recoverable then Having(done, Restarted(db.Chain(), streams[i..])) else Ran(db.Chain(), end, done)
    {
      RestartedFrom(db.Chain(), streams, i, done);
      ghost var mid := Now(db);
      var notified;
      end, notified := RunBlocks(db, streams[i]);
      ghost var r := Run(mid.chain, streams[i]);
      WroteThen(before, mid, Now(db), done, r.written);
      done := done + r.written;
      i := i + 1;
    }
    RestartedFrom(db.Chain(), streams, i, done);
    WroteMarks(before, Now(db), done);
    if old(Steady(db)) {
      WroteSteadyIff(db, before, done);
    }
  }

  /** One run of what is left of the streams. */
  lemma RestartedFrom(chain: Chain, streams: seq<seq<Item>>, i: nat, done: seq<Block>)
    requires i <= |streams|
    ensures streams == streams[0..] && Having([], Restarted(chain, streams)) == Restarted(chain, streams)
    ensures
      var r := Having(done, Restarted(chain, streams[i..]));
      if i == |streams| then r == Ran(chain, Recoverable, done)
      else
        var one := Run(chain, streams[i]);
        r == if one.end == Recoverable then Having(done + one.written, Restarted(one.chain, streams[i + 1..]))
             else Ran(one.chain, one.end, done + one.written)
  {
    hide Run;
    assert done + [] == done;
    if i < |streams| {
      assert streams[i..][1..] == streams[i + 1..];
      var one := Run(chain, streams[i]);
      var r := Restarted(one.chain, streams[i + 1..]);
      assert done + (one.written + r.written) == (done + one.written) + r.written;
    }
  }

  /** One stream after another until a run ends with anything but a recoverable error. */
  ghost function Restarted(chain: Chain, streams: seq<seq<Item>>): Ran
    decreases |streams|
  {
    if streams == [] then Ran(chain, Recoverable, [])
    else
      var r := Run(chain, streams[0]);
      if r.end == Recoverable then Having(r.written, Restarted(r.chain, streams[1..])) else r
  }

  /** The chain after any number of runs, whether restarted after an error or by starting the node again. */
  ghost function AfterRuns(chain: Chain, streams: seq<seq<Item>>): Chain
    decreases |streams|
  {
    if streams == [] then chain else AfterRuns(Run(chain, streams[0]).chain, streams[1..])
  }

  /** The supervisor goes through its streams in order, up to the run that ends it: every run before that ended in a
      recoverable error, and how it ended is how the whole ends.
   */
  lemma {:induction false} RestartedIsRuns(chain: Chain, streams: seq<seq<Item>>) returns (used: nat)
    ensures used <= |streams| && Restarted(chain, streams).chain == AfterRuns(chain, streams[..used])
    ensures Restarted(chain, streams).end == Recoverable ==> used == |streams|
    ensures streams != [] ==> used > 0 && Restarted(chain, streams).end == RunAfter(chain, streams, used - 1).end
    ensures forall i :: 0 <= i < used - 1 ==> RunAfter(chain, streams, i).end == Recoverable
    ensures used < |streams| ==> Restarted(chain, streams).end != Recoverable
    decreases |streams|
  {
    hide Run;
    used := 0;
    if streams != [] {
      used := 1;
      assert streams[..1][1..] == [] && streams[..0] == [];
      var r := Run(chain, streams[0]);
      if r.end == Recoverable {
        used := RestartedIsRuns(r.chain, streams[1..]);
        forall i | 0 <= i < |streams| - 1 ensures RunAfter(chain, streams, i + 1) == RunAfter(r.chain, streams[1..], i) {
          assert streams[..i + 1][1..] == streams[1..][..i];
        }
        used := used + 1;
        assert streams[..used][1..] == streams[1..][..used - 1];
        forall i | 0 <= i < used - 1 ensures RunAfter(chain, streams, i).end == Recoverable {
          assert i > 0 ==> RunAfter(chain, streams, i - 1 + 1) == RunAfter(r.chain, streams[1..], i - 1);
        }
        assert used > 1 ==> RunAfter(chain, streams, used - 2 + 1) == RunAfter(r.chain, streams[1..], used - 2);
      }
    }
  }

  /** Run number `i`, from where the runs before it leave the chain. */
  ghost function RunAfter(chain: Chain, streams: seq<seq<Item>>, i: nat): Ran
    requires i < |streams|
  {
    Run(AfterRuns(chain, streams[..i]), streams[i])
  }

  // ---------------------------------------------------------------- any stream at all

  /** Blocks 0 to `k - 1` are finalized and no others. */
  ghost predicate Interval(chain: Chain, k: nat) {
    && (forall n :: n in chain <==> 0 <= n < k)
    && (forall n :: n in chain ==> chain[n].header.number == n)
  }

  ghost predicate Extends(chain: Chain, more: Chain) {
    forall n :: n in chain ==> n in more && more[n] == chain[n]
  }

  lemma NewestOfInterval(chain: Chain, k: nat)
    requires Interval(chain, k)
    ensures k == 0 <==> chain == map[]
    ensures k > 0 ==> Newest(chain) == k - 1 && k - 1 in chain && chain[k - 1].header.number == k - 1
  {
    if k > 0 {
      assert k - 1 in chain;
    } else {
      assert forall n :: n !in chain;
    }
  }

  lemma {:induction false} FollowKeepsInterval(chain: Chain, k: nat, next: Word, stream: seq<Item>) returns (more: nat)
    requires Interval(chain, k) && next == if k <= WORD_MAX then k else WORD_MAX
    ensures Interval(Follow(chain, next, stream).chain, more) && Extends(chain, Follow(chain, next, stream).chain)
    ensures k <= more <= k + |stream|
    ensures Follow(chain, next, stream).end == WriteFailed ==> more == WORD_MAX + 1
    decreases |stream|
  {
    more := k;
    if stream != [] && stream[0].Received? && stream[0].block.header.number == next && next !in chain {
      more := FollowKeepsInterval(chain[next := stream[0].block], k + 1, SaturatingNext(next), stream[1..]);
    } else {
      LastNumber(chain, k);
    }
  }

  lemma LastNumber(chain: Chain, k: nat)
    requires Interval(chain, k)
    ensures k <= WORD_MAX + 1
  {
    if k > 0 {
      assert chain[k - 1].header.number == k - 1;
    }
  }

  /** Whatever the stream holds, the finalized numbers stay an interval from 0 and no entry changes. A
      write can fail only when the interval has reached the greatest number.
   */
  lemma RunKeepsInterval(chain: Chain, k: nat, stream: seq<Item>) returns (more: nat)
    requires Interval(chain, k)
    ensures Interval(Run(chain, stream).chain, more) && Extends(chain, Run(chain, stream).chain)
    ensures k <= more <= k + |stream|
    ensures Run(chain, stream).end == WriteFailed ==> more == WORD_MAX + 1
  {
    NewestOfInterval(chain, k);
    LastNumber(chain, k);
    more := k;
    if k == 0 {
      more := FollowKeepsInterval(chain, k, 0, stream);
    } else if stream != [] && stream[0] == Received(chain[k - 1]) {
      more := FollowKeepsInterval(chain, k, SaturatingNext(k - 1), stream[1..]);
    }
  }

  /** Over any sequence of runs on arbitrary streams, from any interval, the empty one included. */
  lemma {:induction false} RunsKeepInterval(chain: Chain, k: nat, streams: seq<seq<Item>>) returns (more: nat)
    requires Interval(chain, k)
    ensures Interval(AfterRuns(chain, streams), more) && Extends(chain, AfterRuns(chain, streams)) && k <= more
    decreases |streams|
  {
    hide Run, Interval;
    more := k;
    if streams != [] {
      more := RunKeepsInterval(chain, k, streams[0]);
      more := RunsKeepInterval(Run(chain, streams[0]).chain, more, streams[1..]);
    }
  }

  lemma CeilingRun(chain: Chain, b: Block, rest: seq<Item>)
    requires Interval(chain, WORD_MAX + 1) && b.header.number == WORD_MAX
    ensures Run(chain, [Received(chain[WORD_MAX]), Received(b)] + rest) == Ran(chain, WriteFailed, [])
  {
    NewestOfInterval(chain, WORD_MAX + 1);
    var stream := [Received(chain[WORD_MAX]), Received(b)] + rest;
    assert stream[1..][0] == Received(b);
  }

  /** A run ends as a fork exactly when the chain has a newest block and the stream ends before, or
      begins with another; the chain is then as it was.
   */
  lemma ForkIff(chain: Chain, stream: seq<Item>)
    ensures Run(chain, stream).end == Fork <==>
      chain != map[] && (stream == [] || (stream[0].Received? && stream[0].block != chain[Newest(chain)]))
    ensures Run(chain, stream).end == Fork ==> Run(chain, stream) == Ran(chain, Fork, [])
  {
    if chain == map[] {
      FollowIsNoFork(chain, 0, stream);
    } else if stream != [] {
      FollowIsNoFork(chain, SaturatingNext(chain[Newest(chain)].header.number), stream[1..]);
    }
  }

  lemma {:induction false} FollowIsNoFork(chain: Chain, next: Word, stream: seq<Item>)
    ensures Follow(chain, next, stream).end != Fork
    decreases |stream|
  {
    if stream != [] && stream[0].Received? && stream[0].block.header.number == next {
      FollowIsNoFork(chain[next := stream[0].block], SaturatingNext(next), stream[1..]);
    }
  }

  // ---------------------------------------------------------------- a source that only appends

  ghost predicate Numbered(source: seq<Block>) {
    forall i :: 0 <= i < |source| ==> source[i].header.number == i
  }

  function Taken(source: seq<Block>, k: nat): Chain
    requires k <= |source|
  {
    map n: int | 0 <= n < k :: source[n]
  }

  /** `stream_blocks` asks for the newest block on. */
  ghost function StartOf(chain: Chain): int {
    if chain == map[] then 0 else chain[Newest(chain)].header.number
  }

  /** The stream is the source's blocks from `start` on, until it breaks or is cut. */
  ghost predicate FromSource(source: seq<Block>, start: int, stream: seq<Item>)
    decreases |stream|
  {
    || stream == [] || stream[0].Broken?
    || (0 <= start < |source| && stream[0].block == source[start] && FromSource(source, start + 1, stream[1..]))
  }

  /** Blocks the stream holds before it breaks. */
  function Arrived(stream: seq<Item>): (n: nat)
    ensures n <= |stream|
  {
    if stream == [] || stream[0].Broken? then 0 else 1 + Arrived(stream[1..])
  }

  lemma {:induction false} FollowTakesAll(source: seq<Block>, k: nat, stream: seq<Item>)
    requires Numbered(source) && k <= |source| && FromSource(source, k, stream)
    ensures k + Arrived(stream) <= |source|
    ensures
      var next := if k <= WORD_MAX then k else WORD_MAX;
      Follow(Taken(source, k), next, stream) ==
        Ran(Taken(source, k + Arrived(stream)), if Arrived(stream) == |stream| then Done else Recoverable,
            source[k..k + Arrived(stream)])
    decreases |stream|
  {
    hide Taken, Follow;
    FollowFrom(Taken(source, k), if k <= WORD_MAX then k else WORD_MAX, stream, stream, 0, []);
    if stream != [] && stream[0].Received? {
      assert source[k].header.number == k;
      TakeOne(source, k);
      FollowTakesAll(source, k + 1, stream[1..]);
      assert [source[k]] + source[k + 1..k + Arrived(stream)] == source[k..k + Arrived(stream)];
    }
  }

  lemma TakeOne(source: seq<Block>, k: nat)
    requires k < |source|
    ensures k !in Taken(source, k) && Taken(source, k)[k := source[k]] == Taken(source, k + 1)
  {
  }

  lemma TakenIsInterval(source: seq<Block>, k: nat)
    requires Numbered(source) && k <= |source|
    ensures Interval(Taken(source, k), k)
  {
  }

  /** How far a run gets from `k` blocks: the stream begins with the newest of them. */
  function Reached(k: nat, stream: seq<Item>): nat {
    if Arrived(stream) == 0 then k else if k == 0 then Arrived(stream) else k - 1 + Arrived(stream)
  }

  /** One run against the source: everything that arrives is appended, and nothing else. The run is never
      a fork once its first block has arrived, and no write ever fails.
   */
  lemma {:induction false} RunFollowsSource(source: seq<Block>, k: nat, stream: seq<Item>)
    requires Numbered(source) && k <= |source| && FromSource(source, StartOf(Taken(source, k)), stream)
    ensures k <= Reached(k, stream) <= |source|
    ensures Run(Taken(source, k), stream).chain == Taken(source, Reached(k, stream))
    ensures Run(Taken(source, k), stream).written == source[k..Reached(k, stream)]
    ensures Run(Taken(source, k), stream).end ==
      if Arrived(stream) < |stream| then Recoverable else if k > 0 && stream == [] then Fork else Done
  {
    var chain := Taken(source, k);
    TakenIsInterval(source, k);
    NewestOfInterval(chain, k);
    LastNumber(chain, k);
    if k == 0 {
      FollowTakesAll(source, 0, stream);
    } else if stream != [] && stream[0].Received? {
      assert chain[k - 1] == source[k - 1];
      FollowTakesAll(source, k, stream[1..]);
    }
  }

  /** Each run is served from where the chain then stands. */
  ghost predicate Served(source: seq<Block>, chain: Chain, streams: seq<seq<Item>>)
    decreases |streams|
  {
    || streams == []
    || (FromSource(source, StartOf(chain), streams[0]) && Served(source, Run(chain, streams[0]).chain, streams[1..]))
  }

  /** Over any sequence of cut, broken and restarted runs, a chain that is a prefix of the source stays one
      and never gets shorter.
   */
  lemma {:induction false} RunsFollowSource(source: seq<Block>, k: nat, streams: seq<seq<Item>>) returns (more: nat)
    requires Numbered(source) && k <= |source| && Served(source, Taken(source, k), streams)
    ensures k <= more <= |source| && AfterRuns(Taken(source, k), streams) == Taken(source, more)
    decreases |streams|
  {
    hide Run, Taken, FromSource, Numbered, StartOf, Reached;
    more := k;
    if streams != [] {
      RunFollowsSource(source, k, streams[0]);
      more := RunsFollowSource(source, Reached(k, streams[0]), streams[1..]);
    }
  }

  /** A run against a source whose blocks all fit one after another: a steady database that holds the source's
      first blocks is steady still, and holds the source's first blocks still, no fewer.
   */
  method FollowSource(db: Database, stream: seq<Item>, ghost source: seq<Block>, ghost k: nat)
    returns (end: End, ghost more: nat)
    requires Steady(db) && Numbered(source) && AllFit(multiset{}, source)
    requires k <= |source| && db.Chain() == Taken(source, k) && db.log == SetsOf(source[..k])
    requires FromSource(source, StartOf(db.Chain()), stream)
    modifies db
    ensures Steady(db)
    ensures k <= more <= |source| && db.Chain() == Taken(source, more) && db.log == SetsOf(source[..more])
    ensures end != WriteFailed && (end == Fork ==> k > 0 && stream == [])
  {
    hide Rep, Tallied, Linked, Sound, AllFit, Run, Taken, Appends, Stored, FromSource, Numbered, SetsOf, StartOf, Reached, Wrote;
    RunFollowsSource(source, k, stream);
    more := Reached(k, stream);
    assert source == source[..more] + source[more..];
    assert source[..more] == source[..k] + source[k..more];
    AllFitThen(multiset{}, source[..more], source[more..]);
    AllFitThen(multiset{}, source[..k], source[k..more]);
    assert multiset{} + SetsOf(source[..k]) == SetsOf(source[..k]);
    ghost var before := Now(db);
    var notified;
    end, notified := RunBlocks(db, stream);
    LogAfter(before, Now(db), source[k..more]);
  }

  lemma LogAfter(before: Moment, after: Moment, written: seq<Block>)
    requires Wrote(before, after, written)
    ensures after.log == before.log + SetsOf(written)
  {
  }

  /** If the source has another block at the last synced number, the run is a fork, and the database is as it
      was, in every table.
   */
  method DisagreementIsFork(db: Database, stream: seq<Item>, ghost source: seq<Block>) returns (end: End)
    requires db.Valid() && db.Chain() != map[]
    requires FromSource(source, StartOf(db.Chain()), stream) && Arrived(stream) > 0
    requires source[StartOf(db.Chain())] != db.Chain()[Newest(db.Chain())]
    modifies db
    ensures db.Valid() && end == Fork && Now(db) == old(Now(db))
  {
    hide Rep, Tallied, Linked, Steady, AllFit;
    ForkIff(db.Chain(), stream);
    var notified;
    end, notified := RunBlocks(db, stream);
  }

  /** At the ceiling the number does not advance, so a second block with the greatest number is expected; its
      transaction is rolled back whole and the database is as it was, in every table.
   */
  method CeilingRollsBack(db: Database, last: Block, b: Block, rest: seq<Item>) returns (end: End)
    requires db.Valid() && Interval(db.Chain(), WORD_MAX + 1) && b.header.number == WORD_MAX
    requires last == db.Chain()[WORD_MAX]
    modifies db
    ensures db.Valid() && end == WriteFailed && Now(db) == old(Now(db))
  {
    hide Rep, Tallied, Linked, Steady, AllFit;
    NewestOfInterval(db.Chain(), WORD_MAX + 1);
    CeilingRun(db.Chain(), b, rest);
    var notified;
    end, notified := RunBlocks(db, [Received(last), Received(b)] + rest);
  }

  // ---------------------------------------------------------------- subscribe_blocks

  /** A source that stores exactly these blocks, one for each number, each readable as itself. */
  ghost predicate Publishes(db: Database, source: seq<Block>)
    reads db
  {
    && db.Valid() && Numbered(source)
    && (forall b :: b in db.blocks <==> b in source)
    && (forall b :: b in source ==> b.sets != [] && db.ReadBack(b) == b)
  }

  /** One turn of the loop in `subscribe_blocks`: the block at an index, or nothing yet. It is broken if a stored block
      with that number has no sets. Of several blocks with that number it is the one with the greatest address, as
      it reads back; from a source that publishes one block for each number, that block.
   */
  method Poll(db: Database, ix: Word, ghost source: seq<Block>) returns (r: Option<Item>)
    requires db.Valid()
    ensures r == Some(Broken) <==> exists b :: b in db.blocks && b.header.number == ix && b.sets == []
    ensures r == None <==> forall b :: b in db.blocks ==> b.header.number != ix
    ensures r.Some? && r.value.Received? ==> exists b ::
      && b in db.blocks && b.header.number == ix && r.value.block == db.ReadBack(b)
      && forall c :: c in db.blocks && c.header.number == ix && c != b ==> Precedes(db.hasher.BlockAddr(c), db.hasher.BlockAddr(b))
    ensures Publishes(db, source) ==> r == if 0 <= ix < |source| then Some(Received(source[ix])) else None
  {
    hide Rep, Tallied, Linked, Listed, Precedes, ReadBackOf, Publishes;
    var found := db.ListBlocks(ix, ix + 1);
    OneListed(db, ix, source);
    SourceReadsBack(db, source);
    match found
    case Err(_) => return Some(Broken);
    case Ok(blocks) =>
      LastListed(db, ix);
      if blocks == [] {
        return None;
      }
      return Some(Received(blocks[|blocks| - 1]));
  }

  /** Of the stored blocks with this number, the one with the greatest address. */
  ghost predicate IsLast(db: Database, ix: int, b: Block)
    reads db
  {
    && b in db.blocks && b.header.number == ix
    && forall c :: c in db.blocks && c.header.number == ix && c != b ==> Precedes(db.hasher.BlockAddr(c), db.hasher.BlockAddr(b))
  }

  lemma LastListed(db: Database, ix: int)
    requires db.Valid()
    ensures
      var listed := Listed(db.hasher, db.blocks, ix, ix + 1);
      if listed == [] then forall b :: b in db.blocks ==> b.header.number != ix else IsLast(db, ix, listed[|listed| - 1])
  {
    hide Rep, Tallied, Linked, Listed, Precedes;
    db.ListedRight(ix, ix + 1);
    var listed := Listed(db.hasher, db.blocks, ix, ix + 1);
    forall b | b in db.blocks && b.header.number == ix ensures b in listed {}
    if listed != [] {
      var last := listed[|listed| - 1];
      assert last in listed;
      forall c | c in db.blocks && c.header.number == ix && c != last
        ensures Precedes(db.hasher.BlockAddr(c), db.hasher.BlockAddr(last))
      {
        var i :| 0 <= i < |listed| && listed[i] == c;
      }
    }
  }

  lemma SourceReadsBack(db: Database, source: seq<Block>)
    ensures Publishes(db, source) ==> forall b :: b in source ==> b.sets != [] && db.ReadBack(b) == b && b in db.blocks
  {
    hide Rep, Tallied, Linked, ReadBackOf;
  }

  lemma {:induction false} OneListed(db: Database, ix: Word, source: seq<Block>)
    requires db.Valid()
    ensures Publishes(db, source) ==> Listed(db.hasher, db.blocks, ix, ix + 1) == if 0 <= ix < |source| then [source[ix]] else []
  {
    hide *;
    if Publishes(db, source) {
      Published(db, ix, source);
      ListedIsOrdered(db.hasher, db.blocks, ix, ix + 1);
      OneOf(db, Listed(db.hasher, db.blocks, ix, ix + 1), ix, source);
    }
  }

  lemma {:induction false} OneOf(db: Database, listed: seq<Block>, ix: Word, source: seq<Block>)
    requires db.Valid() && listed == Listed(db.hasher, db.blocks, ix, ix + 1)
    requires forall b :: b in listed ==> 0 <= ix < |source| && b == source[ix]
    requires 0 <= ix < |source| ==> source[ix] in listed
    ensures listed == if 0 <= ix < |source| then [source[ix]] else []
  {
    hide Rep, Tallied, Linked, Listed;
    db.Rows();
    forall i | 0 <= i < |listed| ensures 0 <= ix < |source| && listed[i] == source[ix] {
      assert listed[i] in listed;
    }
    if |listed| > 1 {
      ListedDistinct(db.hasher, db.blocks, ix, ix + 1, 0, 1);
    } else {
      assert 0 <= ix < |source| ==> source[ix] in listed;
      assert |listed| == 1 ==> listed == [listed[0]];
    }
  }

  lemma Published(db: Database, ix: Word, source: seq<Block>)
    requires Publishes(db, source)
    ensures forall b :: b in db.blocks && InRange(b, ix, ix + 1) ==> 0 <= ix < |source| && b == source[ix]
    ensures 0 <= ix < |source| ==> source[ix] in db.blocks && InRange(source[ix], ix, ix + 1)
  {
    hide Rep, Tallied, Linked;
  }

  /** What a subscription yields when the source publishes `snapshots[i]` at its `i`-th poll. */
  ghost function Emitted(snapshots: seq<seq<Block>>, ix: nat): seq<Item> {
    if snapshots == [] then []
    else if ix < |snapshots[0]| then [Received(snapshots[0][ix])] + Emitted(snapshots[1..], ix + 1)
    else Emitted(snapshots[1..], ix)
  }

  /** The loop of `subscribe_blocks`, over the source as it is at each poll: a block that is there is emitted and the
      index moves on; an error is emitted and the index stays.
   */
  method Subscribe(polled: seq<Database>, start: Word, ghost snapshots: seq<seq<Block>>) returns (items: seq<Item>)
    requires 0 <= start && |snapshots| == |polled|
    requires forall i :: 0 <= i < |polled| ==> Publishes(polled[i], snapshots[i]) && |snapshots[i]| <= WORD_MAX
    ensures items == Emitted(snapshots, start)
  {
    hide Publishes, Precedes, ReadBackOf, Emitted, Rep, Tallied, Linked;
    items := [];
    var ix := start;
    EmittedFrom(snapshots, 0, start);
    for i := 0 to |polled|
      invariant 0 <= ix && Emitted(snapshots, start) == items + Emitted(snapshots[i..], ix)
    {
      PublishesValid(polled[i], snapshots[i]);
      EmittedFrom(snapshots, i, ix);
      var r := Poll(polled[i], ix, snapshots[i]);
      match r {
        case None =>
        case Some(Broken) =>
          items := items + [Broken];
        case Some(Received(b)) =>
          items := items + [Received(b)];
          ix := ix + 1;
      }
    }
    EmittedFrom(snapshots, |polled|, ix);
  }

  /** What is left of a subscription after `i` polls. */
  lemma EmittedFrom(snapshots: seq<seq<Block>>, i: nat, ix: nat)
    requires i <= |snapshots|
    ensures snapshots[0..] == snapshots
    ensures Emitted(snapshots[i..], ix) ==
      if i == |snapshots| then []
      else if ix < |snapshots[i]| then [Received(snapshots[i][ix])] + Emitted(snapshots[i + 1..], ix + 1)
      else Emitted(snapshots[i + 1..], ix)
  {
    if i < |snapshots| {
      assert snapshots[i..][1..] == snapshots[i + 1..];
    }
  }

  lemma PublishesValid(db: Database, source: seq<Block>)
    requires Publishes(db, source)
    ensures db.Valid()
  {
  }

  /** However the source grows between polls, a subscription yields its blocks in order without a gap. */
  lemma {:induction false} SubscriptionIsFromSource(source: seq<Block>, snapshots: seq<seq<Block>>, ix: nat)
    requires forall i :: 0 <= i < |snapshots| ==> snapshots[i] <= source
    ensures FromSource(source, ix, Emitted(snapshots, ix))
    ensures Arrived(Emitted(snapshots, ix)) == |Emitted(snapshots, ix)|
    decreases |snapshots|
  {
    if snapshots != [] {
      assert snapshots[0] <= source;
      if ix < |snapshots[0]| {
        SubscriptionIsFromSource(source, snapshots[1..], ix + 1);
        assert Emitted(snapshots, ix)[1..] == Emitted(snapshots[1..], ix + 1);
      } else {
        SubscriptionIsFromSource(source, snapshots[1..], ix);
      }
    }
  }
}
