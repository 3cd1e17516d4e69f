/** The simple meaning of state: run every finalized mutation in order, the last write winning.

    Nothing in the node materialises this. The versioned index (module StateIndex) answers the same
    questions by searching for the newest write at or below a position; this module says what it
    has to agree with.
 */
module ChainState {
  import opened Types
  import Greatest

  /** One cell of state: a contract and a key within it. */
  type Slot = (Addr, Key)
  type State = map<Slot, Value>

  /** The finalized blocks, by number. Numbers may be negative and may have gaps. */
  type Chain = map<int, Block>

  datatype Write = Write(slot: Slot, value: Value)

  /** How far a query looks: through the whole of a block, or through one set of a block. */
  datatype Bound = AtBlock(number: int) | AtSet(number: int, index: nat)

  // ---------------------------------------------------------------- the writes of a solution set

  function SolutionWrites(s: Solution): seq<Write> {
    seq(|s.mutations|, i requires 0 <= i < |s.mutations| =>
      Write((s.solves.contract, s.mutations[i].key), s.mutations[i].value))
  }

  function AllWrites(solutions: seq<Solution>): seq<Write> {
    if solutions == [] then []
    else AllWrites(solutions[..|solutions| - 1]) + SolutionWrites(solutions[|solutions| - 1])
  }

  ghost predicate Sets(set_: SolutionSet, slot: Slot, v: Value) {
    Write(slot, v) in AllWrites(set_.solutions)
  }

  ghost predicate MutatedBy(solutions: seq<Solution>, i: int, j: int, slot: Slot, v: Value) {
    && 0 <= i < |solutions| && 0 <= j < |solutions[i].mutations|
    && slot == (solutions[i].solves.contract, solutions[i].mutations[j].key)
    && v == solutions[i].mutations[j].value
  }

  lemma {:induction false} WritesAreMutations(solutions: seq<Solution>, slot: Slot, v: Value)
    ensures Write(slot, v) in AllWrites(solutions) <==> exists i, j :: MutatedBy(solutions, i, j, slot, v)
  {
    if solutions != [] {
      var k := |solutions| - 1;
      var front, last := solutions[..k], SolutionWrites(solutions[k]);
      WritesAreMutations(front, slot, v);
      if Write(slot, v) in AllWrites(front) {
        var i, j :| MutatedBy(front, i, j, slot, v);
        assert MutatedBy(solutions, i, j, slot, v);
      }
      if Write(slot, v) in last {
        var j :| 0 <= j < |last| && last[j] == Write(slot, v);
        assert MutatedBy(solutions, k, j, slot, v);
      }
      if i, j :| MutatedBy(solutions, i, j, slot, v) {
        if i < k {
          assert MutatedBy(front, i, j, slot, v);
        } else {
          assert last[j] == Write(slot, v) && last[j] in last;
        }
      }
    }
  }

  /** Mutations of one slot within one set carry the same value: the order of a set's solutions
      then does not matter. The default big bang block relies on this weaker condition, since it
      registers the same predicate under three contracts.
   */
  ghost predicate Consistent(set_: SolutionSet) {
    forall slot, v, w :: Sets(set_, slot, v) && Sets(set_, slot, w) ==> v == w
  }

  ghost predicate ConsistentBlock(b: Block) {
    forall i :: 0 <= i < |b.sets| ==> Consistent(b.sets[i])
  }

  ghost predicate ConsistentChain(chain: Chain) {
    forall n :: n in chain ==> ConsistentBlock(chain[n])
  }

  // ---------------------------------------------------------------- replay

  function Lookup(state: State, slot: Slot): Option<Value> {
    if slot in state then Some(state[slot]) else None
  }

  function Apply(state: State, writes: seq<Write>): State {
    if writes == [] then state
    else
      var last := writes[|writes| - 1];
      Apply(state, writes[..|writes| - 1])[last.slot := last.value]
  }

  function ApplySet(state: State, set_: SolutionSet): State {
    Apply(state, AllWrites(set_.solutions))
  }

  function ApplySets(state: State, sets: seq<SolutionSet>): State {
    if sets == [] then state
    else ApplySet(ApplySets(state, sets[..|sets| - 1]), sets[|sets| - 1])
  }

  ghost function Newest(chain: Chain): (n: int)
    requires chain != map[]
    ensures n in chain && forall m :: m in chain ==> m <= n
  {
    Greatest.Exists(chain.Keys);
    var n :| n in chain.Keys && forall m :: m in chain.Keys ==> m <= n;
    n
  }

  ghost function Replay(chain: Chain): State
    decreases |chain|
  {
    if chain == map[] then map[]
    else
      var n := Newest(chain);
      ApplySets(Replay(chain - {n}), chain[n].sets)
  }

  // ---------------------------------------------------------------- prefixes of the chain

  function Truncate(b: Block, k: nat): Block {
    if k < |b.sets| then b.(sets := b.sets[..k]) else b
  }

  /** The part of the chain at or below a bound. */
  function Prefix(chain: Chain, bound: Bound): Chain {
    map n | n in chain && n <= bound.number ::
      if bound.AtSet? && n == bound.number then Truncate(chain[n], bound.index + 1) else chain[n]
  }

  function Before(chain: Chain, n: int): Chain {
    Prefix(chain, AtBlock(n - 1))
  }

  predicate Admits(bound: Bound, n: int, i: int) {
    n < bound.number || (n == bound.number && (bound.AtSet? ==> i <= bound.index))
  }

  ghost predicate WritesAt(chain: Chain, slot: Slot, n: int, i: int, v: Value) {
    n in chain && 0 <= i < |chain[n].sets| && Sets(chain[n].sets[i], slot, v)
  }

  lemma PrefixWrites(chain: Chain, bound: Bound, slot: Slot, n: int, i: int, v: Value)
    ensures WritesAt(Prefix(chain, bound), slot, n, i, v) <==> WritesAt(chain, slot, n, i, v) && Admits(bound, n, i)
  {
  }

  /** Bounded reads ignore every block numbered above the bound, whatever is appended there. */
  lemma PrefixIgnoresLater(chain: Chain, bound: Bound, n: int, b: Block)
    requires n > bound.number
    ensures Prefix(chain[n := b], bound) == Prefix(chain, bound)
  {
  }

  /** Replaying through set `i` of block `n` is replaying everything before the block and then
      running the block's first `i + 1` sets.
   */
  lemma ReplayThroughSet(chain: Chain, n: int, i: nat)
    requires n in chain && i < |chain[n].sets|
    ensures Replay(Prefix(chain, AtSet(n, i))) == ApplySets(Replay(Before(chain, n)), chain[n].sets[..i + 1])
  {
    var p := Prefix(chain, AtSet(n, i));
    assert n in p && Newest(p) == n;
    assert p - {n} == Before(chain, n);
    assert p[n].sets == chain[n].sets[..i + 1];
  }

  lemma ReplayThroughBlock(chain: Chain, n: int)
    requires n in chain
    ensures Replay(Prefix(chain, AtBlock(n))) == ApplySets(Replay(Before(chain, n)), chain[n].sets)
  {
    var p := Prefix(chain, AtBlock(n));
    assert n in p && Newest(p) == n;
    assert p - {n} == Before(chain, n);
  }

  // ---------------------------------------------------------------- replay as a search

  /** `r` is what a search for the newest write to `slot` may return: the value of some write that
      no other write to the slot comes after. Two writes at one position tie.
   */
  ghost predicate IsNewest(chain: Chain, slot: Slot, r: Option<Value>) {
    match r
    case None => forall n, i, v :: !WritesAt(chain, slot, n, i, v)
    case Some(v) => exists n, i :: IsNewestAt(chain, slot, n, i, v)
  }

  ghost predicate IsNewestAt(chain: Chain, slot: Slot, n: int, i: int, v: Value) {
    && WritesAt(chain, slot, n, i, v)
    && forall m, j, w :: WritesAt(chain, slot, m, j, w) ==> m < n || (m == n && j <= i)
  }

  /** The last write to a slot wins, and a slot that is not written keeps what it held. */
  lemma {:induction false} ApplyLookup(state: State, writes: seq<Write>, slot: Slot)
    ensures
      var r := Lookup(Apply(state, writes), slot);
      || (r == Lookup(state, slot) && forall v :: Write(slot, v) !in writes)
      || (r.Some? && exists i ::
            0 <= i < |writes| && writes[i] == Write(slot, r.value) && forall j :: i < j < |writes| ==> writes[j].slot != slot)
  {
    if writes != [] {
      ApplyLookup(state, writes[..|writes| - 1], slot);
    }
  }

  lemma {:induction false} ApplySetsLookup(state: State, sets: seq<SolutionSet>, slot: Slot)
    ensures
      var r := Lookup(ApplySets(state, sets), slot);
      || (r == Lookup(state, slot) && forall i, v :: 0 <= i < |sets| ==> !Sets(sets[i], slot, v))
      || (r.Some? && exists i :: LastSet(sets, slot, i, r.value))
  {
    if sets != [] {
      var k := |sets| - 1;
      var mid := ApplySets(state, sets[..k]);
      var r := Lookup(ApplySets(state, sets), slot);
      ApplySetsLookup(state, sets[..k], slot);
      ApplyLookup(mid, AllWrites(sets[k].solutions), slot);
      if r.Some? && Write(slot, r.value) in AllWrites(sets[k].solutions) {
        assert LastSet(sets, slot, k, r.value);
      } else if i :| Lookup(mid, slot).Some? && LastSet(sets[..k], slot, i, Lookup(mid, slot).value) {
        assert LastSet(sets, slot, i, r.value);
      }
    }
  }

  ghost predicate LastSet(sets: seq<SolutionSet>, slot: Slot, i: int, v: Value) {
    && 0 <= i < |sets| && Sets(sets[i], slot, v)
    && forall j, w :: i < j < |sets| ==> !Sets(sets[j], slot, w)
  }

  /** Replay always holds a newest write. */
  lemma {:induction false} ReplayIsNewest(chain: Chain, slot: Slot)
    ensures IsNewest(chain, slot, Lookup(Replay(chain), slot))
    decreases |chain|
  {
    if chain != map[] {
      var n := Newest(chain);
      var older := chain - {n};
      var r := Lookup(Replay(chain), slot);
      ReplayIsNewest(older, slot);
      ApplySetsLookup(Replay(older), chain[n].sets, slot);
      if i :| r.Some? && LastSet(chain[n].sets, slot, i, r.value) {
        assert IsNewestAt(chain, slot, n, i, r.value);
      } else {
        OlderNewest(chain, n, slot, r);
      }
    }
  }

  lemma OlderNewest(chain: Chain, n: int, slot: Slot, r: Option<Value>)
    requires n in chain && forall i, v :: 0 <= i < |chain[n].sets| ==> !Sets(chain[n].sets[i], slot, v)
    requires IsNewest(chain - {n}, slot, r)
    ensures IsNewest(chain, slot, r)
  {
    forall m, i, v | WritesAt(chain, slot, m, i, v) ensures WritesAt(chain - {n}, slot, m, i, v) {}
    if r.Some? {
      var m, i :| IsNewestAt(chain - {n}, slot, m, i, r.value);
      assert IsNewestAt(chain, slot, m, i, r.value);
    }
  }

  /** The search refines replay: on consistent sets the newest write is unambiguous, and it is what
      replay holds.
   */
  lemma NewestIsReplay(chain: Chain, slot: Slot, r: Option<Value>)
    requires ConsistentChain(chain)
    ensures IsNewest(chain, slot, r) <==> r == Lookup(Replay(chain), slot)
  {
    var s := Lookup(Replay(chain), slot);
    ReplayIsNewest(chain, slot);
    if IsNewest(chain, slot, r) && r.Some? && s.Some? {
      var n, i :| IsNewestAt(chain, slot, n, i, r.value);
      var m, j :| IsNewestAt(chain, slot, m, j, s.value);
      assert n == m && i == j;
    }
  }

  /** No set at or below a bound gives a slot two values. What stands above it may. */
  ghost predicate ClearTo(chain: Chain, bound: Bound) {
    forall n, i :: n in chain && 0 <= i < |chain[n].sets| && Admits(bound, n, i) ==> Consistent(chain[n].sets[i])
  }

  /** The bound that leaves exactly the sets before the `k`-th of block `n` in view. */
  function UpTo(n: int, k: nat): Bound {
    if k == 0 then AtBlock(n - 1) else AtSet(n, k - 1)
  }

  lemma ClearPrefix(chain: Chain, bound: Bound)
    ensures ClearTo(chain, bound) <==> ConsistentChain(Prefix(chain, bound))
  {
    hide Consistent;
    var p := Prefix(chain, bound);
    if ConsistentChain(p) {
      forall n, i | n in chain && 0 <= i < |chain[n].sets| && Admits(bound, n, i) ensures Consistent(chain[n].sets[i]) {
        assert n in p && ConsistentBlock(p[n]) && i < |p[n].sets| && p[n].sets[i] == chain[n].sets[i];
      }
    }
  }

  lemma ClearSooner(chain: Chain, n: int, k: nat, more: nat)
    requires k <= more && ClearTo(chain, UpTo(n, more))
    ensures ClearTo(chain, UpTo(n, k))
  {
    hide Consistent;
    forall m, i | m in chain && 0 <= i < |chain[m].sets| && Admits(UpTo(n, k), m, i) ensures Consistent(chain[m].sets[i]) {
      assert Admits(UpTo(n, more), m, i);
    }
  }

  lemma ConsistentIsClear(chain: Chain, bound: Bound)
    requires ConsistentChain(chain)
    ensures ClearTo(chain, bound)
  {
    hide Consistent;
    assert forall n :: n in chain ==> ConsistentBlock(chain[n]);
  }
}
