/** The parts together: a started database is a first state of the step system, what the relayer's code does to
    the database is a sequence of its commits, and what the validator's code does is a sequence of its own steps.
 */
module Composition {
  import opened Types
  import opened Tables
  import opened ChainState
  import opened Storage
  import opened Soundness
  import opened Validate
  import opened Relayer
  import opened Validator
  import opened ValidationStream
  import opened WakeUp
  import opened BigBang

  /** What the step system sees of a database: everything but the channel and where the validator stands. */
  ghost predicate Shows(s: Node, db: Database)
    requires db.Valid()
    reads db
  {
    && s.chain == db.Chain() && s.log == db.log && Interval(s.chain, s.top)
    && s.failures == db.Failures() && s.progress in s.chain && db.Progress() == Some(s.chain[s.progress])
  }

  /** A database that `ensure_big_bang_block` leaves is where runs begin. */
  lemma StartedIsInit(db: Database, b: Block, s: Node)
    requires db.Valid() && b.header.number == 0 && HasFirst(db, b) && db.Progress() == Some(b)
    requires s == Node(db.Chain(), 1, db.log, 0, s.version, s.version, 0, db.Failures(), Poll, true)
    ensures Init(s) && Shows(s, db)
  {
  }

  // ---------------------------------------------------------------- the relayer

  /** These blocks are committed one after another, and nothing else happens. */
  ghost predicate Commits(env: Env, s: Node, blocks: seq<Block>, t: Node)
    decreases |blocks|
  {
    if blocks == [] then s == t
    else exists u :: Next(env, s, Commit(blocks[0]), u) && Commits(env, u, blocks[1..], t)
  }

  /** Commits append these blocks to the chain, count their sets, and touch nothing else. */
  lemma {:induction false} CommitsAppend(env: Env, s: Node, blocks: seq<Block>, t: Node)
    requires Interval(s.chain, s.top) && Commits(env, s, blocks, t)
    ensures Appends(s.chain, blocks, t.chain)
    ensures t == s.(chain := t.chain, top := s.top + |blocks|, log := s.log + SetsOf(blocks))
    decreases |blocks|
  {
    if blocks == [] {
      NoSets(s.log);
    } else {
      var u :| Next(env, s, Commit(blocks[0]), u) && Commits(env, u, blocks[1..], t);
      NumberFree(s.chain, s.top);
      OneMore(s.chain, s.top, blocks[0]);
      CommitsAppend(env, u, blocks[1..], t);
      assert u.log + SetsOf(blocks[1..]) == s.log + SetsOf(blocks);
    }
  }

  /** What following a stream does to an interval chain is a sequence of commits of the blocks written. */
  lemma {:induction false} FollowCommits(env: Env, s: Node, next: Word, stream: seq<Item>) returns (t: Node)
    requires Interval(s.chain, s.top) && next == if s.top <= WORD_MAX then s.top else WORD_MAX
    ensures t == After(s, Follow(s.chain, next, stream))
    ensures Commits(env, s, Follow(s.chain, next, stream).written, t) && Interval(t.chain, t.top)
    decreases |stream|
  {
    hide SetsOf, Follow, Interval, Commits;
    NoSets(s.log);
    LastNumber(s.chain, s.top);
    FollowFrom(s.chain, next, stream, stream, 0, []);
    NumberFree(s.chain, s.top);
    if stream != [] && stream[0].Received? && stream[0].block.header.number == next && next !in s.chain {
      var b := stream[0].block;
      var u := s.(chain := s.chain[s.top := b], top := s.top + 1, log := s.log + multiset(b.sets));
      var r := Follow(u.chain, SaturatingNext(next), stream[1..]);
      assert next == s.top && [] + [b] == [b];
      assert Follow(s.chain, next, stream) == Having([b], r);
      OneMore(s.chain, s.top, b);
      t := FollowCommits(env, u, SaturatingNext(next), stream[1..]);
      SetsOfFirst(b, r.written);
      assert u.log + SetsOf(r.written) == s.log + SetsOf([b] + r.written);
      CommitsFirst(env, s, b, u, r.written, t);
    } else {
      t := s;
      CommitsNone(env, s);
    }
  }

  /** The state after a run of the relayer. */
  ghost function After(s: Node, r: Ran): Node {
    s.(chain := r.chain, top := s.top + |r.written|, log := s.log + SetsOf(r.written))
  }

  lemma NumberFree(chain: Chain, k: nat)
    requires Interval(chain, k)
    ensures k !in chain && (k > WORD_MAX ==> WORD_MAX in chain)
  {
  }

  lemma OneMore(chain: Chain, k: nat, b: Block)
    requires Interval(chain, k) && b.header.number == k
    ensures Interval(chain[k := b], k + 1)
  {
  }

  lemma CommitsNone(env: Env, s: Node)
    ensures Commits(env, s, [], s)
  {
  }

  lemma CommitsFirst(env: Env, s: Node, b: Block, u: Node, rest: seq<Block>, t: Node)
    requires Next(env, s, Commit(b), u) && Commits(env, u, rest, t)
    ensures Commits(env, s, [b] + rest, t)
  {
    assert ([b] + rest)[1..] == rest && ([b] + rest)[0] == b;
    hide Next;
  }

  lemma NoSets(log: Log)
    ensures log + SetsOf([]) == log
  {
  }

  lemma SetsOfFirst(b: Block, rest: seq<Block>)
    ensures SetsOf([b] + rest) == multiset(b.sets) + SetsOf(rest)
  {
    assert ([b] + rest)[1..] == rest;
  }

  lemma RunCommits(env: Env, s: Node, stream: seq<Item>) returns (t: Node)
    requires Interval(s.chain, s.top)
    ensures t == After(s, Run(s.chain, stream)) && Commits(env, s, Run(s.chain, stream).written, t) && Interval(t.chain, t.top)
  {
    hide SetsOf, Follow, Commits;
    NoSets(s.log);
    NewestOfInterval(s.chain, s.top);
    LastNumber(s.chain, s.top);
    CommitsNone(env, s);
    t := s;
    if s.chain == map[] {
      t := FollowCommits(env, s, 0, stream);
    } else if stream != [] && stream[0] == Received(s.chain[s.top - 1]) {
      t := FollowCommits(env, s, SaturatingNext(s.top - 1), stream[1..]);
    }
  }

  /** A run of the relayer, on any stream, takes a state that shows the database by commits to one that shows it
      again.
   */
  method RelayerCommits(env: Env, db: Database, stream: seq<Item>, ghost s: Node) returns (end: End, ghost t: Node)
    requires db.Valid() && Shows(s, db)
    modifies db
    ensures db.Valid() && Shows(t, db)
    ensures Commits(env, s, Run(old(db.Chain()), stream).written, t)
  {
    hide Rep, Tallied, Linked, Steady, AllFit, Commits;
    t := RunCommits(env, s, stream);
    ghost var before := Now(db);
    var notified;
    end, notified := RunBlocks(db, stream);
    StillShown(db, before, Run(s.chain, stream).written, s, t);
  }

  lemma StillShown(db: Database, before: Moment, written: seq<Block>, s: Node, t: Node)
    requires db.Valid() && Wrote(before, Now(db), written) && before.chain == s.chain && before.log == s.log
    requires t == s.(chain := db.Chain(), top := t.top, log := s.log + SetsOf(written)) && Interval(t.chain, t.top)
    ensures t.chain == db.Chain() && t.log == db.log && db.Progress() == before.progress && db.Failures() == before.failures
    ensures forall n :: n in before.chain ==> n in db.Chain() && db.Chain()[n] == before.chain[n]
  {
    AppendsExtends(before.chain, written, db.Chain());
  }

  // ---------------------------------------------------------------- the validator

  /** A judgement leaves no choice. */
  lemma OneWayToJudge(env: Env, chain: Chain, log: Log, p: Block, was: Marks, now: Marks, r: Result<bool, InternalError>,
                      other: Marks, o: Result<bool, InternalError>)
    requires Judges(env, chain, log, p, was, now, r) && Judges(env, chain, log, p, was, other, o)
    ensures now == other && r == o
  {
    hide FailsAt, ReadBackOf, PassesThere, Newest, WithRow;
    var n := p.header.number + 1;
    if now.progress == was.progress && n in chain && Records(env, chain, n, was.failures, now.failures)
       && Records(env, chain, n, was.failures, other.failures) {
      var i :| RecordsSet(env, chain, n, i, was.failures, now.failures);
      var k :| RecordsSet(env, chain, n, k, was.failures, other.failures);
      OneJudgement(env, chain, n, i);
    }
  }

  lemma NumberOfProgress(s: Node)
    requires Interval(s.chain, s.top) && s.progress in s.chain
    ensures s.chain[s.progress].header.number == s.progress
  {
  }

  lemma StaysSome(chain: Chain, log: Log, p: Block, was: Marks, now: Marks, r: Result<bool, InternalError>)
    requires Advances(chain, log, p, was, now, r) && was.progress.Some?
    ensures now.progress.Some?
  {
  }

  /** One call of `validate_next_block` takes a state that shows the database by the validator's own steps to one
      that shows it again, and the stream stands there as it does after the call's answer.
   */
  method ValidatorSteps(env: Env, db: Database, ghost s: Node)
    returns (r: Result<bool, InternalError>, ghost t: Node, ghost n: nat)
    requires db.Valid() && db.Synced() && Shows(s, db) && Inv(env, s) && Clear(s) && s.pc == Poll
    modifies db`tables
    ensures db.Valid() && db.Synced() && Shows(t, db)
    ensures Leads(env, s, t, n) && t.pc == PcAfter(r)
  {
    hide Rep, Tallied, Linked, Inv, ClearTo, Judges, Advances, Acts, RightVerdict, BlockIn, Leads, Interval;
    ghost var was := MarksOf(db);
    NumberOfProgress(s);
    ghost var o;
    t, n, o := LeftAloneItJudges(env, s);
    ghost var verdict;
    r, verdict := ValidateNextBlock(env, db);
    OneWayToJudge(env, s.chain, s.log, s.chain[s.progress], was, MarksOf(db), r, MarksAt(t), o);
    OwnStepsKeep(env, s, t, n);
    StaysSome(db.Chain(), db.log, s.chain[s.progress], was, MarksOf(db), r);
  }
}
