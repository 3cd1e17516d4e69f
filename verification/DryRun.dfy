/** Validating a block before it is stored: a one-block database in memory, in front of the disk. */
module DryRun {
  import opened Types
  import opened Tables
  import opened ChainState
  import opened Storage
  import opened StateIndex
  import opened Validate

  /** `Memory::new`: an empty database into which just the candidate is inserted and finalized. */
  method NewMemory(hasher: Hasher, b: Block) returns (memory: Database)
    requires hasher.CollisionFree()
    ensures fresh(memory) && memory.Valid() && memory.Chain() == map[b.header.number := b]
  {
    memory := new Database(hasher);
    assert memory.Chain() == map[];
    var ok := memory.InsertAndFinalize(b);
  }

  // ---------------------------------------------------------------- writes over a base

  lemma {:induction false} ApplyOver(base: State, writes: seq<Write>)
    ensures Apply(base, writes) == base + Apply(map[], writes)
  {
    if writes != [] {
      ApplyOver(base, writes[..|writes| - 1]);
    }
  }

  /** Running sets over a state overlays what they write on it. */
  lemma {:induction false} ApplySetsOver(base: State, sets: seq<SolutionSet>)
    ensures ApplySets(base, sets) == base + ApplySets(map[], sets)
  {
    if sets != [] {
      var front, last := sets[..|sets| - 1], AllWrites(sets[|sets| - 1].solutions);
      ApplySetsOver(base, front);
      ApplyOver(ApplySets(base, front), last);
      ApplyOver(ApplySets(map[], front), last);
    }
  }

  /** What the candidate's first `k` sets write. */
  ghost function Written(b: Block, k: nat): State {
    ApplySets(map[], Truncate(b, k).sets)
  }

  /** No set is ambiguous that stands on disk up to the candidate's `k`-th position, or is one of its first `k`. */
  ghost predicate ClearRun(chain: Chain, b: Block, k: nat) {
    var n: int := b.header.number;
    ClearTo(chain, UpTo(n, k)) && ClearTo(map[n := b], UpTo(n, k))
  }

  /** A dry-run read: what the candidate has written so far, else what the disk holds. */
  lemma DryRunRead(memory: Database, disk: Database, b: Block, contract: Addr, key: Key, index: nat, pre: bool)
    requires memory.Valid() && memory.Chain() == map[b.header.number := b]
    requires disk.Valid() && ClearRun(disk.Chain(), b, if pre then index else index + 1)
    ensures
      var (n, k, slot) := (b.header.number, if pre then index else index + 1, (contract, key));
      Read(DryRun(memory.tables, disk.tables), contract, key, n, index, pre)
      == if slot in Written(b, k) then Some(Written(b, k)[slot]) else Lookup(StateAt(disk.Chain(), n, k), slot)
  {
    hide Rep, Tallied, Linked, ExclusiveSet, InclusiveSet, Replay, ClearTo;
    var n := b.header.number;
    SetQueries(memory, contract, key, n, index);
    SetQueries(disk, contract, key, n, index);
    assert Before(memory.Chain(), n) == map[];
    EmptyReplay();
  }

  lemma CommittedState(chain: Chain, b: Block, k: nat)
    ensures
      var n := b.header.number;
      StateAt(chain[n := b], n, k) == Replay(Before(chain, n)) + Written(b, k)
  {
    var n := b.header.number;
    assert Before(chain[n := b], n) == Before(chain, n);
    ApplySetsOver(Replay(Before(chain, n)), Truncate(b, k).sets);
  }

  /** When a dry-run read is the read after committing the candidate in place of whatever has its
      number: exactly when the candidate has written the slot by then, or the block on disk at that
      number, if any, has not changed it.
   */
  lemma OverlayIsCommitIff(memory: Database, disk: Database, b: Block, contract: Addr, key: Key, index: nat, pre: bool)
    requires memory.Valid() && memory.Chain() == map[b.header.number := b]
    requires disk.Valid() && ClearRun(disk.Chain(), b, if pre then index else index + 1)
    ensures
      var (n, k, slot) := (b.header.number, if pre then index else index + 1, (contract, key));
      Read(DryRun(memory.tables, disk.tables), contract, key, n, index, pre) == Lookup(StateAt(disk.Chain()[n := b], n, k), slot)
      <==> slot in Written(b, k) || Lookup(StateAt(disk.Chain(), n, k), slot) == Lookup(StateAt(disk.Chain(), n, 0), slot)
  {
    hide Rep, Tallied, Linked, Read, Written, ClearRun;
    var n, k := b.header.number, if pre then index else index + 1;
    DryRunRead(memory, disk, b, contract, key, index, pre);
    CommittedState(disk.Chain(), b, k);
    StateAtStart(disk.Chain(), n);
  }

  /** If disk has no other block with the candidate's number, a dry run reads what it would read were
      the candidate committed, before and after every set.
   */
  lemma OverlayIsCommit(memory: Database, disk: Database, b: Block, index: nat, pre: bool)
    requires memory.Valid() && memory.Chain() == map[b.header.number := b]
    requires disk.Valid() && ClearRun(disk.Chain(), b, if pre then index else index + 1)
    requires b.header.number in disk.Chain() ==> disk.Chain()[b.header.number] == b
    ensures
      var n := b.header.number;
      View(DryRun(memory.tables, disk.tables), n, index, pre)
      == StateAt(disk.Chain()[n := b], n, if pre then index else index + 1)
  {
    var n, k := b.header.number, if pre then index else index + 1;
    var db := DryRun(memory.tables, disk.tables);
    var view, state := View(db, n, index, pre), StateAt(disk.Chain()[n := b], n, k);
    UnwrittenIsUnchanged(disk.Chain(), b, k);
    hide Rep, Tallied, Linked, Read, Written, View, StateAt, ClearRun;
    forall contract, key ensures Lookup(view, (contract, key)) == Lookup(state, (contract, key)) {
      ViewIsRead(db, contract, key, n, index, pre);
      OverlayIsCommitIff(memory, disk, b, contract, key, index, pre);
    }
    SameState(view, state);
  }

  lemma UnwrittenIsUnchanged(chain: Chain, b: Block, k: nat)
    requires b.header.number in chain ==> chain[b.header.number] == b
    ensures
      var n := b.header.number;
      forall contract, key ::
        var slot: Slot := (contract, key);
        slot in Written(b, k) || Lookup(StateAt(chain, n, k), slot) == Lookup(StateAt(chain, n, 0), slot)
  {
    var n := b.header.number;
    StateAtStart(chain, n);
    if n in chain {
      ApplySetsOver(Replay(Before(chain, n)), Truncate(b, k).sets);
    }
  }

  // ---------------------------------------------------------------- the verdict

  /** The state a dry run's readers see after `k` sets of the candidate: what it has written, over what disk
      holds at that position, be it of another block with the same number.
   */
  ghost function Overlaid(chain: Chain, b: Block, k: nat): State {
    StateAt(chain, b.header.number, k) + Written(b, k)
  }

  ghost function OverlaidGas(env: Env, chain: Chain, b: Block): (gas: seq<Option<Gas>>)
    ensures |gas| == |b.sets|
  {
    seq(|b.sets|, i requires 0 <= i < |b.sets| => CheckSet(env, Overlaid(chain, b, i), Overlaid(chain, b, i + 1), b.sets[i]))
  }

  lemma DryRunView(memory: Database, disk: Database, b: Block, index: nat, pre: bool)
    requires memory.Valid() && memory.Chain() == map[b.header.number := b]
    requires disk.Valid() && ClearRun(disk.Chain(), b, if pre then index else index + 1)
    ensures View(DryRun(memory.tables, disk.tables), b.header.number, index, pre)
      == Overlaid(disk.Chain(), b, if pre then index else index + 1)
  {
    var n, k := b.header.number, if pre then index else index + 1;
    var db := DryRun(memory.tables, disk.tables);
    hide Rep, Tallied, Linked, Read, Written, View, StateAt, ClearRun;
    forall contract, key
      ensures Lookup(View(db, n, index, pre), (contract, key)) == Lookup(Overlaid(disk.Chain(), b, k), (contract, key))
    {
      ViewIsRead(db, contract, key, n, index, pre);
      DryRunRead(memory, disk, b, contract, key, index, pre);
    }
    SameState(View(db, n, index, pre), Overlaid(disk.Chain(), b, k));
  }

  lemma DryRunReadsOverlay(env: Env, memory: Database, disk: Database, b: Block)
    requires memory.Valid() && memory.Chain() == map[b.header.number := b]
    requires disk.Valid() && ClearRun(disk.Chain(), b, |b.sets|)
    ensures ReadGas(env, DryRun(memory.tables, disk.tables), b) == OverlaidGas(env, disk.Chain(), b)
  {
    hide Rep, Tallied, Linked, View, CheckSet, Overlaid, ClearTo;
    var n: int := b.header.number;
    forall i | 0 <= i < |b.sets|
      ensures View(DryRun(memory.tables, disk.tables), b.header.number, i, true) == Overlaid(disk.Chain(), b, i)
      ensures View(DryRun(memory.tables, disk.tables), b.header.number, i, false) == Overlaid(disk.Chain(), b, i + 1)
    {
      ClearSooner(disk.Chain(), n, i, |b.sets|);
      ClearSooner(disk.Chain(), n, i + 1, |b.sets|);
      ClearSooner(map[n := b], n, i, |b.sets|);
      ClearSooner(map[n := b], n, i + 1, |b.sets|);
      DryRunView(memory, disk, b, i, true);
      DryRunView(memory, disk, b, i, false);
    }
  }

  /** If disk has no other block with the candidate's number, the overlay is a run on the chain below it. */
  lemma OverlayRunsInSequence(env: Env, chain: Chain, b: Block)
    requires b.header.number in chain ==> chain[b.header.number] == b
    ensures OverlaidGas(env, chain, b) == RunGas(env, Replay(Before(chain, b.header.number)), b.sets)
  {
    hide CheckSet, Prefix, Replay, ApplySets;
    forall k | 0 <= k <= |b.sets|
      ensures Overlaid(chain, b, k) == ApplySets(Replay(Before(chain, b.header.number)), b.sets[..k])
    {
      OverlayRuns(chain, b, k);
    }
  }

  lemma OverlayRuns(chain: Chain, b: Block, k: nat)
    requires k <= |b.sets| && (b.header.number in chain ==> chain[b.header.number] == b)
    ensures Overlaid(chain, b, k) == ApplySets(Replay(Before(chain, b.header.number)), b.sets[..k])
  {
    assert Truncate(b, k).sets == b.sets[..k];
    ApplySetsOver(Replay(Before(chain, b.header.number)), b.sets[..k]);
  }

  /** `validate_dry_run`: the verdict on the overlay, whatever disk holds. Where it holds no other block with
      the candidate's number, that is the verdict of running the candidate on the chain below its number. The
      caller's database is not changed.
   */
  method ValidateDryRun(env: Env, disk: Database, b: Block) returns (r: Outcome)
    requires disk.Valid()
    ensures r.Invalid? ==> r.index < |b.sets|
    ensures ClearRun(disk.Chain(), b, |b.sets|) ==> Judged(OverlaidGas(env, disk.Chain(), b), r)
    ensures
      var (n, chain) := (b.header.number, disk.Chain());
      ClearRun(chain, b, |b.sets|) && (n in chain ==> chain[n] == b) ==> Judged(RunGas(env, Replay(Before(chain, n)), b.sets), r)
  {
    hide Rep, Tallied, Linked, ReadGas, RunGas, OverlaidGas, Judged, ClearRun;
    var memory := NewMemory(disk.hasher, b);
    if ClearRun(disk.Chain(), b, |b.sets|) {
      DryRunReadsOverlay(env, memory, disk, b);
    }
    if b.header.number in disk.Chain() ==> disk.Chain()[b.header.number] == b {
      OverlayRunsInSequence(env, disk.Chain(), b);
    }
    r := ValidateInner(env, DryRun(memory.tables, disk.tables), b);
  }

  // ---------------------------------------------------------------- a single set

  /** The states before and after a set. */
  datatype Around = Around(pre: State, post: State)

  /** What a set dry-run on top of a chain is checked between. It is given the newest block's own number, so
      it starts from the state before the newest block, and the newest block's first set counts as written
      when it ends.
   */
  ghost function DryAround(chain: Chain, s: SolutionSet): Around {
    if chain == map[] then Around(map[], ApplySet(map[], s))
    else
      var n := Newest(chain);
      Around(Replay(Before(chain, n)), ApplySet(StateAt(chain, n, 1), s))
  }

  /** What it would be checked between in a block at the next number. */
  ghost function NextAround(chain: Chain, s: SolutionSet): Around {
    Around(Replay(chain), ApplySet(Replay(chain), s))
  }

  ghost function SetGas(env: Env, around: Around, s: SolutionSet): Option<Gas> {
    CheckSet(env, around.pre, around.post, s)
  }

  ghost predicate Untouched(s: SolutionSet, slot: Slot) {
    forall v :: !Sets(s, slot, v)
  }

  /** The set is checked as it would be in the next block exactly when the newest block, run as a whole, leaves
      the state below it as it was, and the newest block's first set leaves as they were all slots that the set
      does not write itself. On an empty chain it always is.
   */
  lemma DryRunIsNextBlockIff(chain: Chain, s: SolutionSet)
    ensures chain == map[] ==> DryAround(chain, s) == NextAround(chain, s)
    ensures chain != map[] ==>
      var (n, below) := (Newest(chain), Replay(Before(chain, Newest(chain))));
      (DryAround(chain, s) == NextAround(chain, s) <==>
       && ApplySets(below, chain[n].sets) == below
       && forall slot :: Untouched(s, slot) ==> Lookup(ApplySets(below, Truncate(chain[n], 1).sets), slot) == Lookup(below, slot))
  {
    if chain == map[] {
      EmptyReplay();
    } else {
      var n, below := Newest(chain), Replay(Before(chain, Newest(chain)));
      ReplayOfNewest(chain);
      hide Prefix, Replay, ApplySets, Truncate;
      SameAfterIff(StateAt(chain, n, 1), below, s);
    }
  }

  lemma ReplayOfNewest(chain: Chain)
    requires chain != map[]
    ensures var n := Newest(chain); Replay(chain) == ApplySets(Replay(Before(chain, n)), chain[n].sets)
  {
    var n := Newest(chain);
    assert Prefix(chain, AtBlock(n)) == chain;
    ReplayThroughBlock(chain, n);
  }

  /** A set takes two states to the same one exactly when they agree on all it does not write. */
  lemma SameAfterIff(a: State, b: State, s: SolutionSet)
    ensures ApplySet(a, s) == ApplySet(b, s) <==> forall slot :: Untouched(s, slot) ==> Lookup(a, slot) == Lookup(b, slot)
  {
    var writes := AllWrites(s.solutions);
    ApplyOver(a, writes);
    ApplyOver(b, writes);
    forall slot: Slot ensures slot in Apply(map[], writes) <==> !Untouched(s, slot) {
      ApplyDomain(writes, slot);
      assert forall v :: Sets(s, slot, v) <==> Write(slot, v) in writes;
    }
    hide Apply, AllWrites, Untouched;
    assert ApplySet(a, s) == a + Apply(map[], writes) && ApplySet(b, s) == b + Apply(map[], writes);
    if forall slot :: Untouched(s, slot) ==> Lookup(a, slot) == Lookup(b, slot) {
      OverlaysAgree(a, b, Apply(map[], writes));
    }
    if ApplySet(a, s) == ApplySet(b, s) {
      forall slot: Slot | Untouched(s, slot) ensures Lookup(a, slot) == Lookup(b, slot) {
        assert Lookup(ApplySet(a, s), slot) == Lookup(ApplySet(b, s), slot);
      }
    }
  }

  lemma OverlaysAgree(a: State, b: State, over: State)
    requires forall slot :: slot !in over ==> Lookup(a, slot) == Lookup(b, slot)
    ensures a + over == b + over
  {
    forall slot | slot in a + over ensures slot in b + over && (b + over)[slot] == (a + over)[slot] {
      assert Lookup(a, slot) == Lookup(b, slot) || slot in over;
    }
    forall slot | slot in b + over ensures slot in a + over {
      assert Lookup(a, slot) == Lookup(b, slot) || slot in over;
    }
  }

  lemma {:induction false} ApplyDomain(writes: seq<Write>, slot: Slot)
    ensures slot in Apply(map[], writes) <==> exists v :: Write(slot, v) in writes
  {
    if writes != [] {
      var front, last := writes[..|writes| - 1], writes[|writes| - 1];
      ApplyDomain(front, slot);
      assert writes == front + [last];
      if slot == last.slot {
        assert Write(slot, last.value) in writes;
      } else {
        forall v ensures Write(slot, v) in writes <==> Write(slot, v) in front {}
      }
    }
  }

  /** An input where it is not: the newest block writes a slot which the set reads and does not write. The
      machine passes a set when the slot is there before it. In the next block the set would pass.
   */
  lemma DryRunMissesNewest(now: Timestamp) returns (env: Env, chain: Chain, s: SolutionSet)
    ensures SetGas(env, DryAround(chain, s), s) == None
    ensures SetGas(env, NextAround(chain, s), s) == Some(0)
  {
    var slot: Slot := ([], [1]);
    env := Env([], [], Vm(_ => None, (set_, preds, programs, pre, post) => if slot in pre then Some(0) else None));
    var mutation := Mutation([1], [7]);
    var writer := SolutionSet([Solution(PredicateAddress([], []), [], [mutation])]);
    var b := Block(Header(0, now), [writer]);
    s := SolutionSet([]);
    chain := map[0 := b];
    assert MutatedBy(writer.solutions, 0, 0, slot, [7]);
    WritesAreMutations(writer.solutions, slot, [7]);
    ApplyDomain(AllWrites(writer.solutions), slot);
    assert 0 in chain && Newest(chain) == 0;
    assert Before(chain, 0) == map[];
    EmptyReplay();
    ReplayOfNewest(chain);
    assert [writer][..0] == [];
    assert Replay(chain) == ApplySet(map[], writer);
    assert SetGas(env, DryAround(chain, s), s) == None;
  }

  /** `validate_solution_set_dry_run`, at a given time. */
  method ValidateSetDryRun(env: Env, disk: Database, s: SolutionSet, now: Timestamp) returns (r: Outcome)
    requires disk.Valid()
    ensures r.Invalid? ==> r.index == 0
    ensures SetClear(disk.Chain(), s) ==> Judged([SetGas(env, DryAround(disk.Chain(), s), s)], r)
    ensures SetClear(disk.Chain(), s) && DryAround(disk.Chain(), s) == NextAround(disk.Chain(), s) ==>
      Judged([SetGas(env, NextAround(disk.Chain(), s), s)], r)
  {
    hide Rep, Tallied, Linked, SetGas, Judged, Replay, Prefix, ClearRun, SetClear, DryAround;
    disk.Rows();
    var latest := disk.GetLatestFinalized();
    var number: Word := 1;
    if latest.Some? {
      ghost var newest := disk.Chain()[Newest(disk.Chain())];
      assert newest in disk.blocks;
      var header := disk.GetBlockHeader(latest.value);
      if header.Some? {
        number := header.value.number;
      }
    }
    var b := Block(Header(number, now), [s]);
    SetOverlay(env, disk.Chain(), b, s);
    ClearSetRun(disk.Chain(), b, s);
    r := ValidateDryRun(env, disk, b);
  }

  /** Neither the set nor any finalized set below the newest block, nor that block's first, is ambiguous. */
  ghost predicate SetClear(chain: Chain, s: SolutionSet) {
    Consistent(s) && (chain != map[] ==> ClearTo(chain, AtSet(Newest(chain), 0)))
  }

  lemma ClearSetRun(chain: Chain, b: Block, s: SolutionSet)
    requires b.sets == [s] && b.header.number == if chain == map[] then 1 else Newest(chain)
    ensures SetClear(chain, s) <==> ClearRun(chain, b, 1)
  {
    hide Consistent;
    var n: int := b.header.number;
    if ClearRun(chain, b, 1) {
      var only: Chain := map[n := b];
      assert n in only && Admits(UpTo(n, 1), n, 0) && only[n].sets[0] == s;
    }
  }

  lemma SetOverlay(env: Env, chain: Chain, b: Block, s: SolutionSet)
    requires b.sets == [s] && b.header.number == if chain == map[] then 1 else Newest(chain)
    ensures OverlaidGas(env, chain, b) == [SetGas(env, DryAround(chain, s), s)]
  {
    hide CheckSet, Prefix;
    var n := b.header.number;
    StateAtStart(chain, n);
    if chain == map[] {
      NothingBefore(n);
      EmptyReplay();
    }
    assert Written(b, 0) == map[];
    assert Truncate(b, 1).sets == [s] && [s][..0] == [];
    assert Written(b, 1) == ApplySet(map[], s);
    ApplyOver(StateAt(chain, n, 1), AllWrites(s.solutions));
    assert Overlaid(chain, b, 0) == Replay(Before(chain, n));
    assert Overlaid(chain, b, 1) == ApplySet(StateAt(chain, n, 1), s);
    assert OverlaidGas(env, chain, b)[0] == SetGas(env, DryAround(chain, s), s);
  }

  lemma NothingBefore(n: int)
    ensures Before(map[], n) == map[]
  {
  }
}
