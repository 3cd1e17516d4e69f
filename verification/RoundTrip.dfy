/** What goes into the database comes out of it: blocks by address, and programs and predicates through
    the registries.
 */
module RoundTrip {
  import opened Types
  import opened Reads
  import opened Tables
  import opened ChainState
  import opened Storage
  import opened Soundness
  import opened StateIndex
  import opened Validate
  import opened Registry

  // ---------------------------------------------------------------- blocks

  /** Insert, then read: a block of distinct sets that are not stored yet comes back as it went in, and
      every block stored before still reads as it did.
   */
  method InsertThenGet(db: Database, b: Block) returns (r: Result<Option<Block>, QueryError>)
    requires db.Valid()
    requires b.sets != [] && Distinct(b.sets) && forall s :: s in b.sets ==> s !in db.log
    modifies db
    ensures db.Valid()
    ensures r == Ok(Some(b))
    ensures forall x :: x in old(db.blocks) ==> x in db.blocks && db.ReadBack(x) == old(db.ReadBack(x))
  {
    hide Rep, Tallied, Linked, Copied;
    ghost var log := db.log;
    forall x | x in db.blocks ensures forall s :: s in x.sets ==> s in log && s !in b.sets {
      db.StoredLinks(x);
    }
    var a := db.InsertBlock(b);
    forall q | 0 <= q < |b.sets| ensures db.log[b.sets[q]] == 1 {
      DistinctOnce(b.sets, q);
    }
    ReadBackIsSame(db.log, b);
    assert b in db.blocks;
    r := db.GetBlock(a);
    forall x | x in old(db.blocks) ensures db.ReadBack(x) == old(db.ReadBack(x)) {
      forall q | 0 <= q < |x.sets| ensures db.log[x.sets[q]] == log[x.sets[q]] {
        assert x.sets[q] in x.sets;
      }
      assert db.ReadBack(x).sets == old(db.ReadBack(x)).sets;
    }
  }

  // ---------------------------------------------------------------- registered programs and predicates

  /** The last write to a slot that stands below a bound. */
  ghost predicate LastWrite(chain: Chain, bound: Bound, slot: Slot, v: Value) {
    exists n, i :: IsNewestAt(Prefix(chain, bound), slot, n, i, v)
  }

  lemma LastWriteIsRead(db: Database, contract: Addr, key: Key, v: Value, number: Word, index: nat, pre: bool)
    requires db.Valid() && ClearTo(db.Chain(), UpTo(number, if pre then index else index + 1))
    requires LastWrite(db.Chain(), UpTo(number, if pre then index else index + 1), (contract, key), v)
    ensures Lookup(View(Disk(db.tables), number, index, pre), (contract, key)) == Some(v)
  {
    hide Rep, Tallied, Linked, View, StateAt, Replay;
    var k, slot := if pre then index else index + 1, (contract, key);
    var p := Prefix(db.Chain(), UpTo(number, k));
    DiskView(db, number, index, pre);
    ClearPrefix(db.Chain(), UpTo(number, k));
    NewestIsReplay(p, slot, Some(v));
    ReplayUpTo(db.Chain(), number, k);
  }

  /** A finalized registration is what the validator fetches, byte for byte and whatever the length,
      for as long as nothing overwrites its key.
   */
  lemma ProgramReadsBack(env: Env, db: Database, program: Address, bytes: Blob, number: Word, index: nat, pre: bool)
    requires db.Valid() && |bytes| <= WORD_MAX && ClearTo(db.Chain(), UpTo(number, if pre then index else index + 1))
    requires LastWrite(db.Chain(), UpTo(number, if pre then index else index + 1), (env.programs, ProgramKey(program)), Encode(bytes))
    ensures QueryProgram(env, View(Disk(db.tables), number, index, pre), program) == Found(bytes)
  {
    hide Rep, Tallied, Linked, View, Encode, Decode;
    LastWriteIsRead(db, env.programs, ProgramKey(program), Encode(bytes), number, index, pre);
    DecodeInvertsEncode(bytes);
  }

  /** Likewise for a predicate, which also needs the mark that its contract lists it. */
  lemma PredicateReadsBack(
    env: Env, db: Database, pa: PredicateAddress, mark: Value, bytes: Blob, p: Predicate, number: Word, index: nat, pre: bool)
    requires db.Valid() && |bytes| <= WORD_MAX && env.vm.decode(bytes) == Some(p)
    requires
      var bound := UpTo(number, if pre then index else index + 1);
      && ClearTo(db.Chain(), bound)
      && LastWrite(db.Chain(), bound, (env.contracts, ContractPredicateKey(pa.contract, pa.pred)), mark)
      && LastWrite(db.Chain(), bound, (env.contracts, PredicateKey(pa.pred)), Encode(bytes))
    ensures QueryPredicate(env, View(Disk(db.tables), number, index, pre), pa) == Found(p)
  {
    hide Rep, Tallied, Linked, View, Encode, Decode;
    LastWriteIsRead(db, env.contracts, ContractPredicateKey(pa.contract, pa.pred), mark, number, index, pre);
    LastWriteIsRead(db, env.contracts, PredicateKey(pa.pred), Encode(bytes), number, index, pre);
    DecodeInvertsEncode(bytes);
  }

  /** Registering a program in set `i` of block `n` makes it readable after that set, and for as long as
      no later set writes its key.
   */
  lemma RegisteredProgramReadsBack(
    env: Env, db: Database, program: Address, bytes: Blob, solution: Solution, n: int, i: nat, number: Word, index: nat)
    requires db.Valid() && |bytes| <= WORD_MAX && ClearTo(db.Chain(), AtSet(number, index))
    requires n in db.Chain() && i < |db.Chain()[n].sets| && Admits(AtSet(number, index), n, i)
    requires solution in db.Chain()[n].sets[i].solutions && solution.solves.contract == env.programs
    requires Mutation(ProgramKey(program), Encode(bytes)) in solution.mutations
    requires forall m, j, w :: WritesAt(db.Chain(), (env.programs, ProgramKey(program)), m, j, w) && Admits(AtSet(number, index), m, j) ==>
      m < n || (m == n && j <= i)
    ensures QueryProgram(env, View(Disk(db.tables), number, index, false), program) == Found(bytes)
  {
    hide Rep, Tallied, Linked, View, Encode, QueryProgram;
    var set_, slot, v := db.Chain()[n].sets[i], (env.programs, ProgramKey(program)), Encode(bytes);
    var k :| 0 <= k < |set_.solutions| && set_.solutions[k] == solution;
    var q :| 0 <= q < |solution.mutations| && solution.mutations[q] == Mutation(ProgramKey(program), v);
    assert MutatedBy(set_.solutions, k, q, slot, v);
    WritesAreMutations(set_.solutions, slot, v);
    PrefixWrites(db.Chain(), AtSet(number, index), slot, n, i, v);
    forall m, j, w | WritesAt(Prefix(db.Chain(), AtSet(number, index)), slot, m, j, w) ensures m < n || (m == n && j <= i) {
      PrefixWrites(db.Chain(), AtSet(number, index), slot, m, j, w);
    }
    assert IsNewestAt(Prefix(db.Chain(), AtSet(number, index)), slot, n, i, v);
    assert LastWrite(db.Chain(), UpTo(number, index + 1), slot, v);
    ProgramReadsBack(env, db, program, bytes, number, index, false);
  }
}
