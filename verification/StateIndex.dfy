/** The versioned state index: finalized state queries over the tables.

    State is never materialised. A query joins mutations with the finalized blocks their sets stand
    in and takes the row at the greatest position at or below its bound. `QueryIsReplay` says that
    this is what replaying every finalized mutation up to the bound would hold.
 */
module StateIndex {
  import opened Types
  import opened Rows
  import opened Tables
  import opened ChainState
  import opened Storage
  import Words

  /** A joined row: where the mutation stands, and which row of `mutation` it is. */
  datatype Hit = Hit(number: int, index: int, row: int)

  /** The join of `mutation`, `solution`, `block_solution_set` and `finalized_block`, filtered. */
  predicate Joined(t: Tables, contract: Addr, key: Blob, m: int, l: int, n: int) {
    && 0 <= m < |t.mutations| && 0 <= l < |t.links|
    && t.mutations[m].solution < |t.solutions|
    && t.links[l].sid == t.solutions[t.mutations[m].solution].sid
    && n in t.finalized && t.finalized[n] == t.links[l].block
    && t.solutions[t.mutations[m].solution].contract == contract && t.mutations[m].key == key
  }

  function Hits(t: Tables, contract: Addr, key: Blob, bound: Bound): set<Hit> {
    set m, l, n | 0 <= m < |t.mutations| && 0 <= l < |t.links| && n in t.finalized
                  && Joined(t, contract, key, m, l, n) && Admits(bound, n, t.links[l].index)
      :: Hit(n, t.links[l].index, m)
  }

  /** `ORDER BY block_number DESC, solution_set_index DESC`: `h` may come first. */
  predicate ComesFirst(h: Hit, hits: set<Hit>) {
    h in hits && forall g :: g in hits ==> g.number < h.number || (g.number == h.number && g.index <= h.index)
  }

  function ValueAt(t: Tables, h: Hit): Value {
    if 0 <= h.row < |t.mutations| then Words.WordsFromBlob(t.mutations[h.row].value) else []
  }

  /** What `LIMIT 1` may return: any of the rows that tie for the first place. */
  ghost predicate MayReturn(t: Tables, contract: Addr, key: Blob, bound: Bound, r: Option<Value>) {
    var hits := Hits(t, contract, key, bound);
    match r
    case None => hits == {}
    case Some(v) => exists h :: ComesFirst(h, hits) && ValueAt(t, h) == v
  }

  // ---------------------------------------------------------------- a statement as a function

  predicate HitLe(g: Hit, h: Hit) {
    || g.number < h.number
    || (g.number == h.number && (g.index < h.index || (g.index == h.index && g.row <= h.row)))
  }

  lemma InhabitedHits(hits: set<Hit>)
    ensures hits == {} || exists h :: h in hits
  {
    if forall h :: h !in hits {
      assert hits == {};
    }
  }

  lemma {:induction false} FirstHitExists(hits: set<Hit>)
    requires hits != {}
    ensures exists h :: h in hits && forall g :: g in hits ==> HitLe(g, h)
  {
    InhabitedHits(hits);
    var x :| x in hits;
    var rest := hits - {x};
    assert forall y :: y in hits ==> y == x || y in rest;
    if rest != {} {
      FirstHitExists(rest);
      var h :| h in rest && forall g :: g in rest ==> HitLe(g, h);
      var first := if HitLe(x, h) then h else x;
      assert first in hits && forall g :: g in hits ==> HitLe(g, first);
    }
  }

  function FirstHit(hits: set<Hit>): (h: Hit)
    requires hits != {}
    ensures ComesFirst(h, hits)
  {
    FirstHitExists(hits);
    var h :| h in hits && forall g :: g in hits ==> HitLe(g, h);
    h
  }

  /** Run one of the two statements; of tying rows the one stored last is taken. */
  function QueryState(t: Tables, contract: Addr, key: Key, bound: Bound): (r: Option<Value>)
    ensures MayReturn(t, contract, Words.BlobFromWords(key), bound, r)
  {
    var hits := Hits(t, contract, Words.BlobFromWords(key), bound);
    if hits == {} then None else Some(ValueAt(t, FirstHit(hits)))
  }

  // ---------------------------------------------------------------- the four queries

  function InclusiveBlock(t: Tables, contract: Addr, key: Key, number: Word): Option<Value> {
    QueryState(t, contract, key, AtBlock(number))
  }

  /** `checked_sub` fails only at the least block number, below which nothing is stored. */
  function ExclusiveBlock(t: Tables, contract: Addr, key: Key, number: Word): Option<Value> {
    if number - 1 >= WORD_MIN then InclusiveBlock(t, contract, key, number - 1) else None
  }

  function InclusiveSet(t: Tables, contract: Addr, key: Key, number: Word, index: nat): Option<Value> {
    QueryState(t, contract, key, AtSet(number, index))
  }

  function ExclusiveSet(t: Tables, contract: Addr, key: Key, number: Word, index: nat): Option<Value> {
    if index > 0 then InclusiveSet(t, contract, key, number, index - 1) else ExclusiveBlock(t, contract, key, number)
  }

  // ---------------------------------------------------------------- hits are writes

  /** Some joined row stands at a position with a value. */
  ghost predicate HitAt(t: Tables, contract: Addr, key: Blob, n: int, i: int, v: Value) {
    exists m, l :: Joined(t, contract, key, m, l, n) && t.links[l].index == i && Words.WordsFromBlob(t.mutations[m].value) == v
  }

  /** What a mutation row stands for. */
  lemma RowIsMutation(db: Database, m: nat) returns (j: nat, k: nat, q: nat)
    requires db.Valid() && m < |db.tables.mutations|
    ensures
      var (t, sets) := (db.tables, db.contents.sets);
      var r := t.mutations[m].solution;
      && r < |t.solutions| && j < |sets| && k < |sets[j].content.solutions| && q < |sets[j].content.solutions[k].mutations|
      && t.solutions[r] == SolutionRowOf(j, k, sets[j].content.solutions[k])
      && t.mutations[m].key == Words.BlobFromWords(sets[j].content.solutions[k].mutations[q].key)
      && t.mutations[m].value == Words.BlobFromWords(sets[j].content.solutions[k].mutations[q].value)
  {
    var t, sets := db.tables, db.contents.sets;
    var r := t.mutations[m].solution;
    assert RowInEntry(t.solutions[r], sets);
    j, k := t.solutions[r].sid, t.solutions[r].index;
    SolutionIdOf(t.solutions, sets, j, k);
    var s := sets[j].content.solutions[k];
    assert MutationsMatch(t.mutations, r, s, sets[j].copies[k]);
    WhereMember(t.mutations, (x: MutationRow) => x.solution == r, t.mutations[m]);
    RepeatMember(MutationRows(r, s.mutations), sets[j].copies[k], t.mutations[m]);
    q :| 0 <= q < |s.mutations| && MutationRows(r, s.mutations)[q] == t.mutations[m];
  }

  /** What a link row stands for. */
  lemma RowIsLink(db: Database, l: nat)
    requires db.Valid() && l < |db.tables.links|
    ensures
      var (row, sets) := (db.tables.links[l], db.contents.sets);
      && row.block < |db.blocks| && row.index < |db.blocks[row.block].sets| && row.sid < |sets|
      && sets[row.sid].content == db.blocks[row.block].sets[row.index]
  {
    var row := db.tables.links[l];
    var i := row.block;
    var e := db.contents.blocks[i];
    assert LinksMatch(LinksOf(db.tables.links, i), db.contents.sets, i, e);
    WhereMember(db.tables.links, (r: LinkRow) => r.block == i, row);
    var q :| 0 <= q < |LinksOf(db.tables.links, i)| && LinksOf(db.tables.links, i)[q] == row;
    assert LinkMatches(row, db.contents.sets, i, q, e.block.sets[q]);
  }

  lemma LinkRowExists(db: Database, i: nat, q: nat) returns (l: nat)
    requires db.Valid() && i < |db.blocks| && q < |db.blocks[i].sets|
    ensures l < |db.tables.links| && db.tables.links[l].block == i && db.tables.links[l].index == q
    ensures db.tables.links[l].sid < |db.contents.sets| && db.contents.sets[db.tables.links[l].sid].content == db.blocks[i].sets[q]
  {
    var e := db.contents.blocks[i];
    var rows := LinksOf(db.tables.links, i);
    assert LinksMatch(rows, db.contents.sets, i, e);
    assert LinkMatches(rows[q], db.contents.sets, i, q, e.block.sets[q]);
    WhereMember(db.tables.links, (r: LinkRow) => r.block == i, rows[q]);
    l :| 0 <= l < |db.tables.links| && db.tables.links[l] == rows[q];
  }

  lemma MutationRowExists(db: Database, j: nat, k: nat, q: nat) returns (m: nat)
    requires db.Valid() && j < |db.contents.sets| && k < |db.contents.sets[j].content.solutions|
    requires q < |db.contents.sets[j].content.solutions[k].mutations|
    ensures
      var (t, s) := (db.tables, db.contents.sets[j].content.solutions[k]);
      && m < |t.mutations| && t.mutations[m].solution < |t.solutions| && t.mutations[m].index == q
      && t.solutions[t.mutations[m].solution] == SolutionRowOf(j, k, s)
      && t.mutations[m].key == Words.BlobFromWords(s.mutations[q].key)
      && t.mutations[m].value == Words.BlobFromWords(s.mutations[q].value)
  {
    var t, e := db.tables, db.contents.sets[j];
    var s := e.content.solutions[k];
    assert e == Whole(e.content, db.log[e.content]) && db.log[e.content] > 0;
    SolutionIdOf(t.solutions, db.contents.sets, j, k);
    var r := SolutionId(t.solutions, j, k);
    assert RowInEntry(t.solutions[r], db.contents.sets);
    assert MutationsMatch(t.mutations, r, s, e.copies[k]);
    var row := MutationRows(r, s.mutations)[q];
    RepeatMember(MutationRows(r, s.mutations), e.copies[k], row);
    WhereMember(t.mutations, (x: MutationRow) => x.solution == r, row);
    m :| 0 <= m < |t.mutations| && t.mutations[m] == row;
  }

  /** Every value of a stored set's predicate data has a row under its solution, at its own index. */
  lemma DataRowExists(db: Database, j: nat, k: nat, q: nat) returns (m: nat)
    requires db.Valid() && j < |db.contents.sets| && k < |db.contents.sets[j].content.solutions|
    requires q < |db.contents.sets[j].content.solutions[k].data|
    ensures
      var (t, s) := (db.tables, db.contents.sets[j].content.solutions[k]);
      && m < |t.data| && t.data[m].solution < |t.solutions| && t.data[m].index == q
      && t.solutions[t.data[m].solution] == SolutionRowOf(j, k, s)
      && t.data[m].value == Words.BlobFromWords(s.data[q])
  {
    var t, e := db.tables, db.contents.sets[j];
    var s := e.content.solutions[k];
    assert e == Whole(e.content, db.log[e.content]) && db.log[e.content] > 0;
    SolutionIdOf(t.solutions, db.contents.sets, j, k);
    var r := SolutionId(t.solutions, j, k);
    assert RowInEntry(t.solutions[r], db.contents.sets);
    assert DataMatch(t.data, r, s, e.copies[k]);
    var row := DataRows(r, s.data)[q];
    RepeatMember(DataRows(r, s.data), e.copies[k], row);
    WhereMember(t.data, (x: DataRow) => x.solution == r, row);
    m :| 0 <= m < |t.data| && t.data[m] == row;
  }

  /** The join finds a value at a position exactly when the set there writes it, however often the
      set's rows have been stored.
   */
  lemma HitsAreWrites(db: Database, contract: Addr, key: Key, n: int, i: int, v: Value)
    requires db.Valid()
    ensures HitAt(db.tables, contract, Words.BlobFromWords(key), n, i, v) <==> WritesAt(db.Chain(), (contract, key), n, i, v)
  {
    if HitAt(db.tables, contract, Words.BlobFromWords(key), n, i, v) {
      HitIsWrite(db, contract, key, n, i, v);
    }
    if WritesAt(db.Chain(), (contract, key), n, i, v) {
      WriteIsHit(db, contract, key, n, i, v);
    }
  }

  lemma HitIsWrite(db: Database, contract: Addr, key: Key, n: int, i: int, v: Value)
    requires db.Valid() && HitAt(db.tables, contract, Words.BlobFromWords(key), n, i, v)
    ensures WritesAt(db.Chain(), (contract, key), n, i, v)
  {
    var t := db.tables;
    var m, l :| Joined(t, contract, Words.BlobFromWords(key), m, l, n) && t.links[l].index == i
                && Words.WordsFromBlob(t.mutations[m].value) == v;
    var j, k, q := RowIsMutation(db, m);
    RowIsLink(db, l);
    var s := db.contents.sets[j].content;
    var mutation := s.solutions[k].mutations[q];
    Words.BlobInjective(key, mutation.key);
    Words.BlobRoundTrip(mutation.value);
    hide Rep, Tallied, Linked;
    assert MutatedBy(s.solutions, k, q, (contract, key), v);
    WritesAreMutations(s.solutions, (contract, key), v);
    assert db.Chain()[n].sets[i] == s;
  }

  lemma WriteIsHit(db: Database, contract: Addr, key: Key, n: int, i: int, v: Value)
    requires db.Valid() && WritesAt(db.Chain(), (contract, key), n, i, v)
    ensures HitAt(db.tables, contract, Words.BlobFromWords(key), n, i, v)
  {
    var s := db.Chain()[n].sets[i];
    WritesAreMutations(s.solutions, (contract, key), v);
    var k, q :| MutatedBy(s.solutions, k, q, (contract, key), v);
    var l := LinkRowExists(db, db.tables.finalized[n], i);
    var m := MutationRowExists(db, db.tables.links[l].sid, k, q);
    Words.BlobRoundTrip(v);
    hide Rep, Tallied, Linked;
    assert Joined(db.tables, contract, Words.BlobFromWords(key), m, l, n);
  }

  // ---------------------------------------------------------------- queries are replay

  /** Whichever row the statement returns, it is a newest write at or below the bound. */
  lemma MayReturnIsNewest(db: Database, contract: Addr, key: Key, bound: Bound, r: Option<Value>)
    requires db.Valid()
    ensures MayReturn(db.tables, contract, Words.BlobFromWords(key), bound, r) <==> IsNewest(Prefix(db.Chain(), bound), (contract, key), r)
  {
    var t, blob, p := db.tables, Words.BlobFromWords(key), Prefix(db.Chain(), bound);
    var hits := Hits(t, contract, blob, bound);
    forall n, i, v ensures WritesAt(p, (contract, key), n, i, v) <==> HitAt(t, contract, blob, n, i, v) && Admits(bound, n, i) {
      HitsAreWrites(db, contract, key, n, i, v);
      PrefixWrites(db.Chain(), bound, (contract, key), n, i, v);
    }
    HitsAndPositions(t, contract, blob, bound);
    hide *;
    NewestOfHits(t, contract, key, bound, p, r);
  }

  /** The set of hits seen as positions with values. */
  lemma HitsAndPositions(t: Tables, contract: Addr, key: Blob, bound: Bound)
    ensures forall h :: h in Hits(t, contract, key, bound) ==>
      HitAt(t, contract, key, h.number, h.index, ValueAt(t, h)) && Admits(bound, h.number, h.index)
    ensures forall n, i, v :: HitAt(t, contract, key, n, i, v) && Admits(bound, n, i) ==>
      exists h :: h in Hits(t, contract, key, bound) && h.number == n && h.index == i && ValueAt(t, h) == v
  {
    forall n, i, v | HitAt(t, contract, key, n, i, v) && Admits(bound, n, i)
      ensures exists h :: h in Hits(t, contract, key, bound) && h.number == n && h.index == i && ValueAt(t, h) == v
    {
      var m, l :| Joined(t, contract, key, m, l, n) && t.links[l].index == i && Words.WordsFromBlob(t.mutations[m].value) == v;
      assert Hit(n, i, m) in Hits(t, contract, key, bound);
    }
  }

  lemma {:induction false} NewestOfHits(t: Tables, contract: Addr, key: Key, bound: Bound, p: Chain, r: Option<Value>)
    requires
      var blob := Words.BlobFromWords(key);
      && (forall n, i, v :: WritesAt(p, (contract, key), n, i, v) <==> HitAt(t, contract, blob, n, i, v) && Admits(bound, n, i))
      && (forall h :: h in Hits(t, contract, blob, bound) ==>
            HitAt(t, contract, blob, h.number, h.index, ValueAt(t, h)) && Admits(bound, h.number, h.index))
      && (forall n, i, v :: HitAt(t, contract, blob, n, i, v) && Admits(bound, n, i) ==>
            exists h :: h in Hits(t, contract, blob, bound) && h.number == n && h.index == i && ValueAt(t, h) == v)
    ensures MayReturn(t, contract, Words.BlobFromWords(key), bound, r) <==> IsNewest(p, (contract, key), r)
  {
    hide Hits, HitAt, WritesAt, Admits, ValueAt;
    var slot, hits := (contract, key), Hits(t, contract, Words.BlobFromWords(key), bound);
    InhabitedHits(hits);
    if r.Some? {
      if MayReturn(t, contract, Words.BlobFromWords(key), bound, r) {
        var h :| ComesFirst(h, hits) && ValueAt(t, h) == r.value;
        assert WritesAt(p, slot, h.number, h.index, r.value);
        assert IsNewestAt(p, slot, h.number, h.index, r.value);
      }
      if IsNewest(p, slot, r) {
        var n, i :| IsNewestAt(p, slot, n, i, r.value);
        assert WritesAt(p, slot, n, i, r.value);
        var h :| h in hits && h.number == n && h.index == i && ValueAt(t, h) == r.value;
        forall g | g in hits ensures g.number < n || (g.number == n && g.index <= i) {
          assert WritesAt(p, slot, g.number, g.index, ValueAt(t, g));
        }
        assert ComesFirst(h, hits);
      }
    } else if h :| h in hits {
      assert WritesAt(p, slot, h.number, h.index, ValueAt(t, h));
    }
  }

  /** Where no set at or below the bound is ambiguous, whatever a query may return is what replay up to the
      bound holds. Sets above it do not matter.
   */
  lemma QueryIsReplay(db: Database, contract: Addr, key: Key, bound: Bound, r: Option<Value>)
    requires db.Valid() && ClearTo(db.Chain(), bound)
    ensures
      MayReturn(db.tables, contract, Words.BlobFromWords(key), bound, r)
      <==> r == Lookup(Replay(Prefix(db.Chain(), bound)), (contract, key))
    ensures QueryState(db.tables, contract, key, bound) == Lookup(Replay(Prefix(db.Chain(), bound)), (contract, key))
  {
    var s := QueryState(db.tables, contract, key, bound);
    ClearPrefix(db.Chain(), bound);
    MayReturnIsNewest(db, contract, key, bound, r);
    NewestIsReplay(Prefix(db.Chain(), bound), (contract, key), r);
    MayReturnIsNewest(db, contract, key, bound, s);
    NewestIsReplay(Prefix(db.Chain(), bound), (contract, key), s);
  }

  /** Consistency is what it takes: if a finalized set gives one slot two values, then at that set's
      own position the statement may return either of them, and replay holds only one.
   */
  lemma RepliesAreReplayIffConsistent(db: Database)
    requires db.Valid()
    ensures
      (forall contract, key, bound, r :: MayReturn(db.tables, contract, Words.BlobFromWords(key), bound, r) ==>
        r == Lookup(Replay(Prefix(db.Chain(), bound)), (contract, key)))
      <==> ConsistentChain(db.Chain())
  {
    hide *;
    if ConsistentChain(db.Chain()) {
      forall contract, key, bound, r | MayReturn(db.tables, contract, Words.BlobFromWords(key), bound, r)
        ensures r == Lookup(Replay(Prefix(db.Chain(), bound)), (contract, key))
      {
        ConsistentIsClear(db.Chain(), bound);
        QueryIsReplay(db, contract, key, bound, r);
      }
    } else {
      var contract, key, bound, v, w := AmbiguousReply(db);
    }
  }

  lemma AmbiguousReply(db: Database) returns (contract: Addr, key: Key, bound: Bound, v: Value, w: Value)
    requires db.Valid() && !ConsistentChain(db.Chain())
    ensures v != w
    ensures MayReturn(db.tables, contract, Words.BlobFromWords(key), bound, Some(v))
    ensures MayReturn(db.tables, contract, Words.BlobFromWords(key), bound, Some(w))
  {
    hide Rep, Tallied, Linked, MayReturn;
    var chain := db.Chain();
    var n :| n in chain && !ConsistentBlock(chain[n]);
    var i :| 0 <= i < |chain[n].sets| && !Consistent(chain[n].sets[i]);
    var slot; slot, v, w :| Sets(chain[n].sets[i], slot, v) && Sets(chain[n].sets[i], slot, w) && v != w;
    contract, key, bound := slot.0, slot.1, AtSet(n, i);
    TieAt(db, n, i, slot, v);
    TieAt(db, n, i, slot, w);
  }

  lemma TieAt(db: Database, n: int, i: nat, slot: Slot, v: Value)
    requires db.Valid() && WritesAt(db.Chain(), slot, n, i, v)
    ensures MayReturn(db.tables, slot.0, Words.BlobFromWords(slot.1), AtSet(n, i), Some(v))
  {
    assert WritesAt(Prefix(db.Chain(), AtSet(n, i)), slot, n, i, v);
    assert IsNewestAt(Prefix(db.Chain(), AtSet(n, i)), slot, n, i, v);
    MayReturnIsNewest(db, slot.0, slot.1, AtSet(n, i), Some(v));
  }

  /** A query depends on nothing but the finalized chain at or below its bound. Blocks finalized
      later do not matter, nor does how often a set has been stored, nor what else is stored.
   */
  lemma SamePrefixSameReplies(a: Database, b: Database, contract: Addr, key: Key, bound: Bound, r: Option<Value>)
    requires a.Valid() && b.Valid() && Prefix(a.Chain(), bound) == Prefix(b.Chain(), bound)
    ensures
      var blob := Words.BlobFromWords(key);
      MayReturn(a.tables, contract, blob, bound, r) <==> MayReturn(b.tables, contract, blob, bound, r)
  {
    MayReturnIsNewest(a, contract, key, bound, r);
    MayReturnIsNewest(b, contract, key, bound, r);
  }

  /** Storing a block leaves every reply as it was, even when its sets are stored already and their
      mutation rows are now there once more.
   */
  method InsertKeepsReplies(db: Database, b: Block)
    requires db.Valid()
    modifies db
    ensures db.Valid() && db.Chain() == old(db.Chain())
    ensures forall contract, key, bound, r ::
      MayReturn(db.tables, contract, Words.BlobFromWords(key), bound, r)
      <==> MayReturn(old(db.tables), contract, Words.BlobFromWords(key), bound, r)
  {
    hide Rep, Tallied, Linked, MayReturn, Prefix;
    db.Rows();
    ghost var t, chain := db.tables, db.Chain();
    AppendKeepsChain(db.tables.finalized, db.blocks, b);
    forall contract, key, bound, r
      ensures MayReturn(t, contract, Words.BlobFromWords(key), bound, r) <==> IsNewest(Prefix(chain, bound), (contract, key), r)
    {
      MayReturnIsNewest(db, contract, key, bound, r);
    }
    var a := db.InsertBlock(b);
    forall contract, key, bound, r
      ensures MayReturn(db.tables, contract, Words.BlobFromWords(key), bound, r) <==> IsNewest(Prefix(chain, bound), (contract, key), r)
    {
      MayReturnIsNewest(db, contract, key, bound, r);
    }
  }

  // ---------------------------------------------------------------- the four queries by position

  /** State after the blocks below `n` and the first `k` sets of block `n`. */
  ghost function StateAt(chain: Chain, n: int, k: nat): State {
    var base := Replay(Before(chain, n));
    if n in chain then ApplySets(base, Truncate(chain[n], k).sets) else base
  }

  lemma NothingBelowLeast(db: Database)
    requires db.Valid()
    ensures Before(db.Chain(), WORD_MIN) == map[]
  {
    db.Rows();
    forall n | n in db.Chain() ensures n >= WORD_MIN {
      assert db.Chain()[n].header.number == n;
    }
  }

  lemma ReplayAtSet(chain: Chain, n: int, i: nat)
    ensures Replay(Prefix(chain, AtSet(n, i))) == StateAt(chain, n, i + 1)
  {
    if n in chain && i < |chain[n].sets| {
      ReplayThroughSet(chain, n, i);
      assert chain[n].sets[..|chain[n].sets|] == chain[n].sets;
    } else if n in chain {
      assert Prefix(chain, AtSet(n, i)) == Prefix(chain, AtBlock(n));
      ReplayThroughBlock(chain, n);
    } else {
      assert Prefix(chain, AtSet(n, i)) == Before(chain, n);
    }
  }

  lemma StateAtStart(chain: Chain, n: int)
    ensures StateAt(chain, n, 0) == Replay(Before(chain, n))
  {
    assert n in chain ==> Truncate(chain[n], 0).sets == [];
  }

  lemma ReplayUpTo(chain: Chain, n: int, k: nat)
    ensures Replay(Prefix(chain, UpTo(n, k))) == StateAt(chain, n, k)
  {
    if k == 0 {
      StateAtStart(chain, n);
      BeforeIsPrefix(chain, n);
    } else {
      ReplayAtSet(chain, n, k - 1);
    }
  }

  lemma ReplayAtBlock(chain: Chain, n: int)
    ensures Replay(Prefix(chain, AtBlock(n))) == StateAt(chain, n, if n in chain then |chain[n].sets| else 0)
  {
    if n in chain {
      ReplayThroughBlock(chain, n);
    } else {
      assert Prefix(chain, AtBlock(n)) == Before(chain, n);
    }
  }

  /** Exclusive and inclusive of a block are the states before and after all of its sets, at the
      least block number and past the end of the chain alike.
   */
  lemma BlockQueries(db: Database, contract: Addr, key: Key, n: Word)
    requires db.Valid()
    ensures ClearTo(db.Chain(), AtBlock(n - 1)) ==>
      ExclusiveBlock(db.tables, contract, key, n) == Lookup(StateAt(db.Chain(), n, 0), (contract, key))
    ensures ClearTo(db.Chain(), AtBlock(n)) ==>
      InclusiveBlock(db.tables, contract, key, n)
      == Lookup(StateAt(db.Chain(), n, if n in db.Chain() then |db.Chain()[n].sets| else 0), (contract, key))
  {
    hide Rep, Tallied, Linked, QueryState, Prefix, Replay, StateAt, ClearTo;
    var chain := db.Chain();
    StateAtStart(chain, n);
    if n - 1 < WORD_MIN {
      NothingBelowLeast(db);
      EmptyReplay();
    } else if ClearTo(chain, AtBlock(n - 1)) {
      QueryIsReplay(db, contract, key, AtBlock(n - 1), None);
      BeforeIsPrefix(chain, n);
    }
    if ClearTo(chain, AtBlock(n)) {
      QueryIsReplay(db, contract, key, AtBlock(n), None);
      ReplayAtBlock(chain, n);
    }
  }

  lemma BeforeIsPrefix(chain: Chain, n: int)
    ensures Before(chain, n) == Prefix(chain, AtBlock(n - 1))
  {
  }

  lemma EmptyReplay()
    ensures Replay(map[]) == map[]
  {
  }

  /** Exclusive of a set is the state it starts from and inclusive the state it leaves, at index 0 and
      past the end of the block alike.
   */
  lemma SetQueries(db: Database, contract: Addr, key: Key, n: Word, i: nat)
    requires db.Valid()
    ensures ClearTo(db.Chain(), UpTo(n, i)) ==>
      ExclusiveSet(db.tables, contract, key, n, i) == Lookup(StateAt(db.Chain(), n, i), (contract, key))
    ensures ClearTo(db.Chain(), UpTo(n, i + 1)) ==>
      InclusiveSet(db.tables, contract, key, n, i) == Lookup(StateAt(db.Chain(), n, i + 1), (contract, key))
  {
    hide Rep, Tallied, Linked, InclusiveSet, Prefix, Replay, StateAt, ExclusiveBlock, ClearTo;
    InclusiveQuery(db, contract, key, n, i);
    if i > 0 {
      InclusiveQuery(db, contract, key, n, i - 1);
    } else {
      BlockQueries(db, contract, key, n);
    }
  }

  lemma InclusiveQuery(db: Database, contract: Addr, key: Key, n: Word, i: nat)
    requires db.Valid()
    ensures ClearTo(db.Chain(), AtSet(n, i)) ==>
      InclusiveSet(db.tables, contract, key, n, i) == Lookup(StateAt(db.Chain(), n, i + 1), (contract, key))
  {
    hide Rep, Tallied, Linked, QueryState, Prefix, Replay, StateAt, ClearTo;
    if ClearTo(db.Chain(), AtSet(n, i)) {
      QueryIsReplay(db, contract, key, AtSet(n, i), None);
      ReplayAtSet(db.Chain(), n, i);
    }
  }
}
