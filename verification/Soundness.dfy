/** When everything that is stored can be trusted to read back: a condition on the finalized chain and on
    how often each solution set has been stored, and exactly which blocks keep it.
 */
module Soundness {
  import opened Types
  import opened Rows
  import opened Tables
  import opened Reads
  import opened ChainState
  import opened Storage

  type Log = multiset<SolutionSet>

  // ---------------------------------------------------------------- one block

  predicate NothingToRepeat(s: SolutionSet) {
    forall i :: 0 <= i < |s.solutions| ==> s.solutions[i].mutations == [] && s.solutions[i].data == []
  }

  /** The block can be read, and what is read is the block. */
  ghost predicate ReadsBack(log: Log, b: Block) {
    b.sets != [] && ReadBackOf(log, b) == b
  }

  /** A block reads back as itself exactly when each of its sets has been stored just once, or has neither
      mutations nor predicate data that could come back repeated.
   */
  lemma ReadBackIsSame(log: Log, b: Block)
    ensures ReadBackOf(log, b) == b <==> forall q :: 0 <= q < |b.sets| ==> log[b.sets[q]] == 1 || NothingToRepeat(b.sets[q])
  {
    var back := ReadBackOf(log, b);
    forall q | 0 <= q < |b.sets| ensures back.sets[q] == b.sets[q] <==> log[b.sets[q]] == 1 || NothingToRepeat(b.sets[q]) {
      CopiedIsSame(b.sets[q], log[b.sets[q]]);
    }
    assert back == b <==> forall q :: 0 <= q < |b.sets| ==> back.sets[q] == b.sets[q];
  }

  predicate Distinct(sets: seq<SolutionSet>) {
    forall i, j :: 0 <= i < j < |sets| ==> sets[i] != sets[j]
  }

  /** Sets are distinct exactly if each of them occurs once. */
  lemma {:induction false} DistinctIsOnce(sets: seq<SolutionSet>)
    ensures Distinct(sets) <==> forall q :: 0 <= q < |sets| ==> multiset(sets)[sets[q]] == 1
  {
    forall q | 0 <= q < |sets| ensures multiset(sets)[sets[q]] == 1 <==> forall p :: 0 <= p < |sets| && p != q ==> sets[p] != sets[q] {
      OnceIff(sets, q);
    }
  }

  lemma OnceIff(sets: seq<SolutionSet>, q: nat)
    requires q < |sets|
    ensures multiset(sets)[sets[q]] == 1 <==> forall p :: 0 <= p < |sets| && p != q ==> sets[p] != sets[q]
  {
    var before, after := sets[..q], sets[q + 1..];
    assert sets == before + [sets[q]] + after;
    assert multiset(sets)[sets[q]] == 1 <==> sets[q] !in before && sets[q] !in after;
    if sets[q] in after {
      var p :| 0 <= p < |after| && after[p] == sets[q];
      assert sets[q + 1 + p] == sets[q];
    }
    if p :| 0 <= p < |sets| && p != q && sets[p] == sets[q] {
      assert if p < q then before[p] == sets[q] else after[p - q - 1] == sets[q];
    }
  }

  lemma DistinctOnce(sets: seq<SolutionSet>, q: nat)
    requires Distinct(sets) && q < |sets|
    ensures multiset(sets)[sets[q]] == 1
  {
    DistinctIsOnce(sets);
  }

  /** A block that has stopped reading back as itself never does so again, since counts only grow. */
  lemma ReadsBackEarlier(log: Log, more: Log, b: Block)
    requires log <= more && forall q :: 0 <= q < |b.sets| ==> b.sets[q] in log
    requires ReadsBack(more, b)
    ensures ReadsBack(log, b)
  {
    ReadBackIsSame(log, b);
    ReadBackIsSame(more, b);
    hide ReadBackOf, NothingToRepeat;
    forall q | 0 <= q < |b.sets| ensures log[b.sets[q]] == 1 || NothingToRepeat(b.sets[q]) {
      assert log[b.sets[q]] <= more[b.sets[q]];
    }
  }

  // ---------------------------------------------------------------- the chain

  /** Every finalized block reads back as itself, and no set of one gives a slot two values. */
  ghost predicate Sound(chain: Chain, log: Log) {
    ConsistentChain(chain) && forall n :: n in chain ==> ReadsBack(log, chain[n])
  }

  /** The sets of every finalized block have been stored. */
  ghost predicate Covers(log: Log, chain: Chain) {
    forall n, q :: n in chain && 0 <= q < |chain[n].sets| ==> chain[n].sets[q] in log
  }

  /** What a block must be for a sound chain to stay sound when it is stored and finalized. */
  ghost predicate Fits(log: Log, b: Block) {
    && b.sets != [] && ConsistentBlock(b)
    && forall q :: 0 <= q < |b.sets| ==> NothingToRepeat(b.sets[q]) || (b.sets[q] !in log && multiset(b.sets)[b.sets[q]] == 1)
  }

  lemma FreshFits(log: Log, b: Block)
    requires b.sets != [] && ConsistentBlock(b) && Distinct(b.sets) && forall s :: s in b.sets ==> s !in log
    ensures Fits(log, b)
  {
    forall q | 0 <= q < |b.sets| ensures b.sets[q] !in log && multiset(b.sets)[b.sets[q]] == 1 {
      DistinctOnce(b.sets, q);
    }
  }

  lemma SoundEarlier(chain: Chain, log: Log, more: Chain, later: Log)
    requires log <= later && Covers(log, chain) && Sound(more, later)
    requires forall n :: n in chain ==> n in more && more[n] == chain[n]
    ensures Sound(chain, log)
  {
    hide ReadsBack, ConsistentBlock;
    forall n | n in chain ensures ReadsBack(log, chain[n]) {
      ReadsBackEarlier(log, later, chain[n]);
    }
  }

  lemma StoredBlockReadsBackIff(log: Log, b: Block)
    ensures ConsistentBlock(b) && ReadsBack(log + multiset(b.sets), b) <==> Fits(log, b)
  {
    var later := log + multiset(b.sets);
    ReadBackIsSame(later, b);
    hide ReadBackOf, NothingToRepeat, ConsistentBlock;
    forall q | 0 <= q < |b.sets| ensures later[b.sets[q]] == 1 <==> b.sets[q] !in log && multiset(b.sets)[b.sets[q]] == 1 {
      assert b.sets[q] in multiset(b.sets);
    }
  }

  /** Storing and finalizing a block keeps a sound chain sound exactly when the block fits. */
  lemma AppendIsSoundIff(chain: Chain, log: Log, b: Block)
    requires Sound(chain, log) && Covers(log, chain) && b.header.number !in chain
    ensures
      var (more, later) := (chain[b.header.number := b], log + multiset(b.sets));
      Covers(later, more) && (Sound(more, later) <==> Fits(log, b))
  {
    var n, more, later := b.header.number, chain[b.header.number := b], log + multiset(b.sets);
    StoredBlockReadsBackIff(log, b);
    assert forall m :: m in more <==> m == n || m in chain;
    hide ReadsBack, ConsistentBlock;
    if Fits(log, b) {
      forall m | m in chain ensures ReadsBack(later, chain[m]) {
        OthersStillReadBack(log, b, chain[m]);
      }
    }
    if Sound(more, later) {
      assert n in more && more[n] == b;
    }
  }

  lemma OthersStillReadBack(log: Log, b: Block, x: Block)
    requires Fits(log, b) && ReadsBack(log, x) && forall q :: 0 <= q < |x.sets| ==> x.sets[q] in log
    ensures ReadsBack(log + multiset(b.sets), x)
  {
    var later := log + multiset(b.sets);
    ReadBackIsSame(log, x);
    ReadBackIsSame(later, x);
    hide ReadBackOf, NothingToRepeat, ConsistentBlock;
    forall q | 0 <= q < |x.sets| ensures later[x.sets[q]] == 1 || NothingToRepeat(x.sets[q]) {
      if x.sets[q] in multiset(b.sets) {
        var p :| 0 <= p < |b.sets| && b.sets[p] == x.sets[q];
        assert NothingToRepeat(b.sets[p]);
      }
    }
  }

  // ---------------------------------------------------------------- many blocks

  /** `more` is `chain` with these blocks finalized one after another, each at a number that was free. */
  ghost predicate Appends(chain: Chain, blocks: seq<Block>, more: Chain)
    decreases |blocks|
  {
    if blocks == [] then more == chain
    else blocks[0].header.number !in chain && Appends(chain[blocks[0].header.number := blocks[0]], blocks[1..], more)
  }

  ghost function SetsOf(blocks: seq<Block>): Log {
    if blocks == [] then multiset{} else multiset(blocks[0].sets) + SetsOf(blocks[1..])
  }

  ghost predicate AllFit(log: Log, blocks: seq<Block>)
    decreases |blocks|
  {
    blocks == [] || (Fits(log, blocks[0]) && AllFit(log + multiset(blocks[0].sets), blocks[1..]))
  }

  lemma {:induction false} AppendsThen(a: Chain, xs: seq<Block>, b: Chain, ys: seq<Block>, c: Chain)
    requires Appends(a, xs, b) && Appends(b, ys, c)
    ensures Appends(a, xs + ys, c) && SetsOf(xs + ys) == SetsOf(xs) + SetsOf(ys)
    decreases |xs|
  {
    if xs == [] {
      assert xs + ys == ys;
    } else {
      assert (xs + ys)[0] == xs[0] && (xs + ys)[1..] == xs[1..] + ys;
      AppendsThen(a[xs[0].header.number := xs[0]], xs[1..], b, ys, c);
    }
  }

  lemma {:induction false} AppendsExtends(chain: Chain, blocks: seq<Block>, more: Chain)
    requires Appends(chain, blocks, more)
    ensures forall n :: n in chain ==> n in more && more[n] == chain[n]
    decreases |blocks|
  {
    if blocks != [] {
      var next := chain[blocks[0].header.number := blocks[0]];
      AppendsExtends(next, blocks[1..], more);
      assert forall n :: n in chain ==> n in next && next[n] == chain[n];
    }
  }

  /** Whatever is appended, the chain is sound afterwards exactly when every block fitted when its turn came. */
  lemma {:induction false} AppendsSoundIff(chain: Chain, log: Log, blocks: seq<Block>, more: Chain)
    requires Sound(chain, log) && Covers(log, chain) && Appends(chain, blocks, more)
    ensures Sound(more, log + SetsOf(blocks)) <==> AllFit(log, blocks)
    decreases |blocks|
  {
    hide Sound, Covers, Fits;
    if blocks == [] {
      assert log + SetsOf(blocks) == log;
    } else {
      var b := blocks[0];
      var next, later := chain[b.header.number := b], log + multiset(b.sets);
      AppendIsSoundIff(chain, log, b);
      assert later + SetsOf(blocks[1..]) == log + SetsOf(blocks);
      if Fits(log, b) {
        AppendsSoundIff(next, later, blocks[1..], more);
      } else if Sound(more, log + SetsOf(blocks)) {
        AppendsExtends(next, blocks[1..], more);
        SoundEarlier(next, later, more, log + SetsOf(blocks));
      }
    }
  }

  lemma {:induction false} AllFitThen(log: Log, xs: seq<Block>, ys: seq<Block>)
    ensures AllFit(log, xs + ys) <==> AllFit(log, xs) && AllFit(log + SetsOf(xs), ys)
    ensures SetsOf(xs + ys) == SetsOf(xs) + SetsOf(ys)
    decreases |xs|
  {
    if xs == [] {
      assert xs + ys == ys && log + SetsOf(xs) == log;
    } else {
      var later := log + multiset(xs[0].sets);
      assert (xs + ys)[0] == xs[0] && (xs + ys)[1..] == xs[1..] + ys;
      AllFitThen(later, xs[1..], ys);
      assert later + SetsOf(xs[1..]) == log + SetsOf(xs);
    }
  }

  // ---------------------------------------------------------------- the database

  /** What is stored is finalized, and the chain is sound. */
  ghost predicate Steady(db: Database)
    reads db
  {
    db.Valid() && db.Synced() && Sound(db.Chain(), db.log)
  }

  lemma LogCovers(db: Database)
    requires db.Valid()
    ensures Covers(db.log, db.Chain())
  {
    hide Rep, Tallied, Linked, LinksQuery;
    db.Rows();
    forall n, q | n in db.Chain() && 0 <= q < |db.Chain()[n].sets| ensures db.Chain()[n].sets[q] in db.log {
      db.StoredLinks(db.Chain()[n]);
    }
  }
}
