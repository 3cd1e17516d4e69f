/** Starting a node: block 0 is put in place and validation begins from it. */
module BigBang {
  import opened Types
  import opened Rows
  import opened Listing
  import opened Tables
  import opened Reads
  import opened ChainState
  import opened Storage
  import opened Soundness
  import opened Relayer

  datatype BigBangError = UnexpectedBlock(expected: Addr, found: Addr) | ListBlocks(error: QueryError)

  // ---------------------------------------------------------------- the code

  ghost function FirstBlocks(db: Database): seq<Block>
    reads db
  {
    Listed(db.hasher, db.blocks, 0, 1)
  }

  lemma NoneListed(db: Database)
    requires db.Valid() && FirstBlocks(db) == []
    ensures 0 !in db.Chain() && forall b :: b in db.blocks ==> b.header.number != 0
  {
    db.Rows();
    assert 0 in db.Chain() ==> db.Chain()[0] in db.blocks && db.Chain()[0].header.number == 0;
    hide Rep, Tallied, Linked, Listed;
    ListedIsOrdered(db.hasher, db.blocks, 0, 1);
    forall b | b in db.blocks ensures b.header.number != 0 {
      assert InRange(b, 0, 1) <==> b in FirstBlocks(db);
    }
  }

  lemma FirstStored(db: Database)
    requires db.Valid()
    ensures forall x :: x in FirstBlocks(db) <==> x in db.blocks && x.header.number == 0
    ensures FirstBlocks(db) == [] <==> forall x :: x in db.blocks ==> x.header.number != 0
  {
    hide Rep, Tallied, Linked, Listed;
    ListedInOrder(db.hasher, db.blocks, 0, 1);
    if FirstBlocks(db) != [] {
      assert FirstBlocks(db)[0] in FirstBlocks(db);
    }
  }

  /** The first block that is listed at number 0: of several, the one with the least address. */
  method FirstBlock(db: Database) returns (r: Result<Option<Block>, QueryError>)
    requires db.Valid()
    ensures FirstBlocks(db) == [] <==> forall x :: x in db.blocks ==> x.header.number != 0
    ensures r == if exists x :: x in db.blocks && x.header.number == 0 && x.sets == [] then Err(NullColumn)
                 else if FirstBlocks(db) == [] then Ok(None)
                 else Ok(Some(db.ReadBack(FirstBlocks(db)[0])))
  {
    hide Rep, Tallied, Linked, Listed, ReadBackOf;
    FirstStored(db);
    var found := db.ListBlocks(0, 1);
    match found
    case Err(NullColumn) => return Err(NullColumn);
    case Ok(blocks) => return Ok(if blocks == [] then None else Some(blocks[0]));
  }

  /** The first half of `ensure_big_bang_block`: store block 0 if there is none, or else compare the one there
      is. A block that differs is an error that names both, one that cannot be read another, and nothing is changed.
   */
  method PutFirstBlock(db: Database, b: Block) returns (r: Result<(), BigBangError>)
    requires db.Valid() && b.header.number == 0
    modifies db
    ensures db.Valid() && db.tables.progress == old(db.tables.progress) && db.tables.failed == old(db.tables.failed)
    ensures old(FirstBlocks(db)) == [] ==>
      && r.Ok? && db.Chain() == old(db.Chain())[0 := b]
      && db.blocks == old(db.blocks) + [b] && db.log == old(db.log) + multiset(b.sets)
    ensures old(FirstBlocks(db)) != [] ==>
      && db.tables == old(db.tables) && db.blocks == old(db.blocks) && db.log == old(db.log)
      && var (empty, there) := (exists x :: x in db.blocks && x.header.number == 0 && x.sets == [], old(db.ReadBack(FirstBlocks(db)[0])));
         r == if empty then Err(ListBlocks(NullColumn))
              else if there != b then Err(UnexpectedBlock(db.hasher.BlockAddr(b), db.hasher.BlockAddr(there)))
              else Ok(())
    ensures old(FirstBlocks(db)) == [] <==> forall x :: x in old(db.blocks) ==> x.header.number != 0
  {
    hide Rep, Tallied, Linked, Listed, ReadBackOf, FirstBlocks;
    var a := db.hasher.BlockAddr(b);
    var found := FirstBlock(db);
    match found
    case Err(e) => return Err(ListBlocks(e));
    case Ok(None) =>
      NoneListed(db);
      var ok := db.WriteBlock(b);
      return Ok(());
    case Ok(Some(block)) =>
      var there := db.hasher.BlockAddr(block);
      if there != a {
        return Err(UnexpectedBlock(a, there));
      }
      db.hasher.BlockAddrInjective(block, b);
      return Ok(());
  }

  /** The second half: validation begins from block 0 unless it has begun already. */
  method BeginProgress(db: Database, a: Addr)
    requires db.Valid()
    modifies db`tables
    ensures db.Valid() && db.Chain() == old(db.Chain()) && db.tables == old(db.tables).(progress := db.tables.progress)
    ensures old(db.Progress()).Some? ==> db.tables == old(db.tables)
    ensures old(db.Progress()).None? ==> forall b :: b in db.blocks && db.hasher.BlockAddr(b) == a ==> db.Progress() == Some(b)
  {
    hide Rep, Tallied, Linked;
    var progress := db.GetValidationProgress();
    if progress.None? {
      var ok := db.UpdateValidationProgress(a);
    }
  }

  /** `ensure_big_bang_block`; with `cut` set, the node stops between the two halves. */
  method EnsureBigBangBlock(db: Database, b: Block, cut: bool) returns (r: Result<Addr, BigBangError>)
    requires db.Valid() && b.header.number == 0
    modifies db
    ensures db.Valid() && db.tables.failed == old(db.tables.failed)
    ensures old(FirstBlocks(db)) == [] ==>
      && r.Ok? && db.Chain() == old(db.Chain())[0 := b]
      && db.blocks == old(db.blocks) + [b] && db.log == old(db.log) + multiset(b.sets)
    ensures old(FirstBlocks(db)) != [] ==>
      && db.Chain() == old(db.Chain()) && db.blocks == old(db.blocks) && db.log == old(db.log)
      && db.tables == old(db.tables).(progress := db.tables.progress)
      && var (empty, there) := (exists x :: x in db.blocks && x.header.number == 0 && x.sets == [], old(db.ReadBack(FirstBlocks(db)[0])));
         r == if empty then Err(ListBlocks(NullColumn))
              else if there != b then Err(UnexpectedBlock(db.hasher.BlockAddr(b), db.hasher.BlockAddr(there)))
              else Ok(db.hasher.BlockAddr(b))
    ensures old(FirstBlocks(db)) == [] <==> forall x :: x in old(db.blocks) ==> x.header.number != 0
    ensures r.Ok? ==> r.value == db.hasher.BlockAddr(b)
    ensures r.Err? || cut || old(db.Progress()).Some? ==> db.tables.progress == old(db.tables.progress)
    ensures r.Ok? && !cut && old(db.Progress()).None? && b in db.blocks ==> db.Progress() == Some(b)
  {
    hide Rep, Tallied, Linked, Listed;
    db.Rows();
    var put := PutFirstBlock(db, b);
    db.Rows();
    match put
    case Err(e) => return Err(e);
    case Ok(_) =>
      if !cut {
        BeginProgress(db, db.hasher.BlockAddr(b));
      }
      return Ok(db.hasher.BlockAddr(b));
  }

  // ---------------------------------------------------------------- starting again and again

  /** Block 0 and nothing else is stored and finalized. */
  ghost predicate HasFirst(db: Database, b: Block)
    requires db.Valid()
    reads db
  {
    && db.blocks == [b] && db.log == multiset(b.sets) && db.Chain() == map[0 := b] && db.tables.failed == []
  }

  ghost predicate Empty(db: Database)
    requires db.Valid()
    reads db
  {
    db.blocks == [] && db.log == multiset{} && db.Chain() == map[] && db.tables.failed == []
  }

  lemma FirstIsListed(db: Database, b: Block)
    requires db.Valid() && b.header.number == 0 && b.sets != [] && Distinct(b.sets)
    ensures Empty(db) ==> FirstBlocks(db) == []
    ensures HasFirst(db, b) ==> FirstBlocks(db) == [b] && db.ReadBack(b) == b
  {
    hide Rep, Tallied, Linked;
    if HasFirst(db, b) {
      forall q | 0 <= q < |b.sets| ensures db.log[b.sets[q]] == 1 {
        DistinctOnce(b.sets, q);
      }
      ReadBackIsSame(db.log, b);
      assert [b][..0] == [] && Where([b], Within(0, 1)) == [b];
    }
  }

  /** However often the start is cut short, and however often it is repeated, the database is then what one
      uninterrupted start from empty leaves: block 0 stored once and finalized, and progress at it.
   */
  method StartAgain(db: Database, b: Block, cuts: seq<bool>) returns (r: Result<Addr, BigBangError>)
    requires db.Valid() && b.header.number == 0 && b.sets != [] && Distinct(b.sets)
    requires Empty(db) && db.Progress() == None
    modifies db
    ensures db.Valid() && r == Ok(db.hasher.BlockAddr(b))
    ensures HasFirst(db, b) && db.Progress() == Some(b)
  {
    hide Rep, Tallied, Linked, Listed;
    for i := 0 to |cuts|
      invariant db.Valid() && (Empty(db) || HasFirst(db, b))
      invariant Empty(db) ==> db.Progress() == None
      invariant db.Progress() == None || db.Progress() == Some(b)
    {
      FirstIsListed(db, b);
      var again := EnsureBigBangBlock(db, b, cuts[i]);
    }
    FirstIsListed(db, b);
    r := EnsureBigBangBlock(db, b, false);
  }

  /** A started node is where the relayer and the validator take over: the chain is an interval from 0, and
      the database is as the validator needs it.
   */
  lemma StartedIsSteady(db: Database, b: Block)
    requires db.Valid() && HasFirst(db, b) && b.header.number == 0
    requires b.sets != [] && Distinct(b.sets) && ConsistentBlock(b)
    ensures Steady(db) && Interval(db.Chain(), 1)
  {
    hide Rep, Tallied, Linked, ConsistentBlock, Distinct, ChainOf, Listed, ReadBackOf;
    FirstIsListed(db, b);
  }
}
