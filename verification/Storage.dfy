/** The node's database: the tables, and the functions that write and read them. */
module Storage {
  import opened Types
  import opened Rows
  import opened Tables
  import Greatest
  import Words
  import opened Listing
  import opened Reads
  import opened ChainState

  datatype QueryError = NullColumn

  /** The `failed_block` table as blocks and sets. */
  type FailureRows = seq<(Block, SolutionSet)>

  class Database {
    const hasher: Hasher
    var tables: Tables

    // The blocks stored so far, in the order of their rows, and how often each solution set has been
    // stored. `contents` is the same account at the granularity of the insert loops.
    ghost var blocks: seq<Block>
    ghost var log: multiset<SolutionSet>
    ghost var contents: Contents

    ghost predicate Valid()
      reads this
    {
      && hasher.CollisionFree()
      && Rep(hasher, tables, contents)
      && contents.blocks == Linked(blocks)
      && Tallied(contents.sets, log)
      && (forall n :: n in tables.finalized ==> tables.finalized[n] < |blocks|)
    }

    constructor (hasher: Hasher)
      requires hasher.CollisionFree()
      ensures Valid() && this.hasher == hasher
      ensures tables == EMPTY && blocks == [] && log == multiset{}
    {
      this.hasher := hasher;
      tables := EMPTY;
      blocks := [];
      log := multiset{};
      contents := Contents([], []);
      EmptyRep(hasher);
    }

    // -------------------------------------------------------------- insert_block

    /** The innermost loops of `insert_block`: one solution with its mutations and predicate data. */
    method StoreSolution(a: Addr, index: nat, s: Solution)
      requires SetId(tables.sets, a) >= 0
      modifies this`tables
      ensures tables == PutSolution(old(tables), SetId(old(tables).sets, a), index, s)
    {
      var sid := SetId(tables.sets, a);
      tables := tables.(solutions := PutSolutionRow(tables.solutions, SolutionRowOf(sid, index, s)));
      ghost var base := tables;
      assert SolutionId(tables.solutions, sid, index) >= 0 by {
        if SolutionId(old(tables).solutions, sid, index) < 0 {
          assert tables.solutions[|tables.solutions| - 1] == SolutionRowOf(sid, index, s);
        }
      }
      for k := 0 to |s.mutations|
        invariant SolutionId(base.solutions, sid, index) >= 0
        invariant tables == base.(mutations := base.mutations + MutationRows(SolutionId(base.solutions, sid, index), s.mutations)[..k])
      {
        var m := s.mutations[k];
        var row := MutationRow(SolutionId(tables.solutions, SetId(tables.sets, a), index), k,
                               Words.BlobFromWords(m.key), Words.BlobFromWords(m.value));
        tables := tables.(mutations := tables.mutations + [row]);
      }
      ghost var stored := tables;
      for k := 0 to |s.data|
        invariant SolutionId(base.solutions, sid, index) >= 0
        invariant tables == stored.(data := base.data + DataRows(SolutionId(base.solutions, sid, index), s.data)[..k])
      {
        var row := DataRow(SolutionId(tables.solutions, SetId(tables.sets, a), index), k, Words.BlobFromWords(s.data[k]));
        tables := tables.(data := tables.data + [row]);
      }
    }

    /** The loop over the solutions of one set. */
    method StoreSolutions(a: Addr, s: SolutionSet, ghost j: nat, ghost n: nat)
      requires Rep(hasher, tables, contents)
      requires j < |contents.sets| && SetId(tables.sets, a) == j && contents.sets[j] == Partial(s, n, 0)
      modifies this`tables, this`contents
      ensures Rep(hasher, tables, contents)
      ensures tables == old(tables).(solutions := tables.solutions, mutations := tables.mutations, data := tables.data)
      ensures contents == old(contents).(sets := old(contents).sets[j := Whole(s, n + 1)])
    {
      hide Rep, PutSolution;
      for k := 0 to |s.solutions|
        invariant Rep(hasher, tables, contents)
        invariant tables == old(tables).(solutions := tables.solutions, mutations := tables.mutations, data := tables.data)
        invariant contents == old(contents).(sets := old(contents).sets[j := Partial(s, n, k)])
      {
        PartialStep(contents.sets, j, n, k);
        KeepsSolution(hasher, tables, contents, j, k);
        StoreSolution(a, k, s.solutions[k]);
        contents := contents.(sets := contents.sets[j := Partial(s, n, k + 1)]);
      }
      PartialEnds(s, n);
    }

    /** Insert the row of a solution set. */
    method StoreSetRow(s: SolutionSet) returns (ghost j: nat)
      requires hasher.CollisionFree() && Rep(hasher, tables, contents) && Tallied(contents.sets, log)
      modifies this`tables, this`contents
      ensures Rep(hasher, tables, contents)
      ensures j < |contents.sets| && SetId(tables.sets, hasher.ofSet(s)) == j && contents.sets[j] == Partial(s, log[s], 0)
      ensures contents.sets[j].content == s && (s !in log ==> j == |old(contents).sets|)
      ensures tables == old(tables).(sets := tables.sets)
      ensures old(tables).sets <= tables.sets
      ensures contents == old(contents).(sets := if s in log then old(contents).sets else old(contents).sets + [Partial(s, 0, 0)])
    {
      var a := hasher.ofSet(s);
      hide Rep, Partial;
      SetIdIn(hasher, tables, contents, s);
      PartialEnds(s, log[s]);
      if SetId(tables.sets, a) < 0 {
        KeepsSetRow(hasher, tables, contents, s);
        contents := contents.(sets := contents.sets + [Partial(s, 0, 0)]);
      }
      tables := tables.(sets := PutSetRow(tables.sets, a));
      j := SetId(tables.sets, a);
    }

    /** Insert the row that places a solution set in a block. */
    method StoreLink(block: Addr, a: Addr, index: nat, ghost i: nat, ghost j: nat)
      requires Rep(hasher, tables, contents)
      requires i < |contents.blocks| && BlockId(tables.blocks, block) == i
      requires j < |contents.sets| && SetId(tables.sets, a) == j
      requires index < |contents.blocks[i].block.sets| && contents.blocks[i].block.sets[index] == contents.sets[j].content
      requires index <= contents.blocks[i].linked
      modifies this`tables, this`contents
      ensures Rep(hasher, tables, contents)
      ensures tables == old(tables).(links := tables.links)
      ensures
        var e := old(contents).blocks[i];
        contents == old(contents).(blocks := old(contents).blocks[i := e.(linked := if index == e.linked then index + 1 else e.linked)])
    {
      hide Rep;
      if index == contents.blocks[i].linked {
        KeepsLink(hasher, tables, contents, i, index, j);
      } else {
        LinkIgnored(hasher, tables, contents, i, index, j);
      }
      tables := tables.(links := PutLinkRow(tables.links, LinkRow(BlockId(tables.blocks, block), SetId(tables.sets, a), index)));
      if index == contents.blocks[i].linked {
        contents := contents.(blocks := contents.blocks[i := contents.blocks[i].(linked := index + 1)]);
      }
    }

    /** One turn of the outer loop of `insert_block`: a solution set, its link and its solutions. */
    method StoreSet(block: Addr, index: nat, s: SolutionSet, ghost i: nat)
      requires hasher.CollisionFree() && Rep(hasher, tables, contents) && Tallied(contents.sets, log)
      requires i < |contents.blocks| && BlockId(tables.blocks, block) == i
      requires index < |contents.blocks[i].block.sets| && contents.blocks[i].block.sets[index] == s
      requires index <= contents.blocks[i].linked
      modifies this`tables, this`contents, this`log
      ensures Rep(hasher, tables, contents) && Tallied(contents.sets, log)
      ensures log == old(log) + multiset{s}
      ensures old(tables).sets <= tables.sets
      ensures tables.blocks == old(tables).blocks && tables.finalized == old(tables).finalized
      ensures tables.failed == old(tables).failed && tables.progress == old(tables).progress
      ensures
        var e := old(contents).blocks[i];
        contents.blocks == old(contents).blocks[i := e.(linked := if index == e.linked then index + 1 else e.linked)]
    {
      hide Rep, Partial, Whole, Tallied;
      var a := hasher.ofSet(s);
      ghost var n := log[s];
      ghost var sets := contents.sets;
      ghost var j := StoreSetRow(s);
      StoreLink(block, a, index, i, j);
      PartialEnds(s, n);
      StoreSolutions(a, s, j, n);
      WholeContent(s, n + 1);
      SetIdIn(hasher, tables, contents, s);
      assert s in log ==> contents.sets[j := Whole(s, n)] == sets;
      assert s !in log ==> contents.sets[..|contents.sets| - 1] == sets;
      TallyStep(contents.sets, log, s, j, sets);
      log := log + multiset{s};
    }

    /** The outer loop of `insert_block`. */
    method StoreSets(a: Addr, b: Block, ghost i: nat)
      requires hasher.CollisionFree() && Rep(hasher, tables, contents) && Tallied(contents.sets, log)
      requires i < |contents.blocks| && BlockId(tables.blocks, a) == i
      requires contents.blocks[i].block == b && (contents.blocks[i].linked == 0 || contents.blocks[i].linked == |b.sets|)
      modifies this`tables, this`contents, this`log
      ensures Rep(hasher, tables, contents) && Tallied(contents.sets, log)
      ensures log == old(log) + multiset(b.sets)
      ensures old(tables).sets <= tables.sets
      ensures tables.blocks == old(tables).blocks && tables.finalized == old(tables).finalized
      ensures tables.failed == old(tables).failed && tables.progress == old(tables).progress
      ensures contents.blocks == old(contents).blocks[i := BlockEntry(b, |b.sets|)]
    {
      hide Rep, Tallied;
      for q := 0 to |b.sets|
        invariant Rep(hasher, tables, contents) && Tallied(contents.sets, log)
        invariant log == old(log) + multiset(b.sets[..q])
        invariant old(tables).sets <= tables.sets
        invariant tables.blocks == old(tables).blocks && tables.finalized == old(tables).finalized
        invariant tables.failed == old(tables).failed && tables.progress == old(tables).progress
        invariant contents.blocks ==
          old(contents).blocks[i := BlockEntry(b, if old(contents).blocks[i].linked == 0 then q else |b.sets|)]
      {
        assert b.sets[..q + 1] == b.sets[..q] + [b.sets[q]];
        StoreSet(a, q, b.sets[q], i);
      }
      assert b.sets[..|b.sets|] == b.sets;
    }

    /** Store a block: its row, then every solution set with its solutions. Storing a block or a set
        again is not an error; its mutation and predicate data rows are then stored once more.
     */
    method InsertBlock(b: Block) returns (a: Addr)
      requires Valid()
      modifies this
      ensures Valid() && a == hasher.BlockAddr(b)
      ensures blocks == if b in old(blocks) then old(blocks) else old(blocks) + [b]
      ensures log == old(log) + multiset(b.sets)
      ensures tables.finalized == old(tables).finalized
      ensures tables.failed == old(tables).failed && tables.progress == old(tables).progress
      ensures old(tables).sets <= tables.sets
    {
      hide Rep, Tallied;
      a := hasher.BlockAddr(b);
      BlockIdIn(hasher, tables, contents, b);
      LinkedAppend(blocks, b);
      assert forall i :: 0 <= i < |blocks| ==> blocks[i] == contents.blocks[i].block;
      if BlockId(tables.blocks, a) < 0 {
        KeepsBlockRow(hasher, tables, contents, b);
        contents := contents.(blocks := contents.blocks + [BlockEntry(b, 0)]);
        blocks := blocks + [b];
      }
      tables := tables.(blocks := PutBlockRow(tables.blocks, a, b.header));
      StoreSets(a, b, BlockId(tables.blocks, a));
    }

    // -------------------------------------------------------------- finalize_block, write_block

    /** The finalized chain: what every state query and the validator see. */
    ghost function Chain(): Chain
      requires Valid()
      reads this
    {
      ChainOf(tables.finalized, blocks)
    }

    lemma Rows()
      requires Valid()
      ensures |tables.blocks| == |blocks| && forall i :: 0 <= i < |blocks| ==> tables.blocks[i].header == blocks[i].header
      ensures forall i, j :: 0 <= i < j < |blocks| ==> blocks[i] != blocks[j]
      ensures forall n :: n in tables.finalized ==> tables.finalized[n] < |blocks| && blocks[tables.finalized[n]].header.number == n
      ensures tables.progress.Some? ==> tables.progress.value < |blocks|
    {
      assert forall i :: 0 <= i < |blocks| ==> contents.blocks[i].block == blocks[i];
    }

    lemma RowOf(b: Block)
      requires Valid()
      ensures
        var id := BlockId(tables.blocks, hasher.BlockAddr(b));
        if id >= 0 then id < |blocks| && blocks[id] == b else b !in blocks
    {
      BlockIdIn(hasher, tables, contents, b);
      assert forall i :: 0 <= i < |blocks| ==> contents.blocks[i].block == blocks[i];
    }

    /** Finalize the block at an address. The insert aborts, changing nothing, when its number is
        taken; an unknown address selects no row and so inserts none.
     */
    method FinalizeBlock(a: Addr) returns (ok: bool)
      requires Valid()
      modifies this`tables
      ensures Valid()
      ensures tables == old(tables).(finalized := tables.finalized)
      ensures Failures() == old(Failures()) && Progress() == old(Progress())
      ensures forall b :: hasher.BlockAddr(b) == a && b in blocks ==>
        && (ok <==> b.header.number !in old(Chain()))
        && Chain() == if ok then old(Chain())[b.header.number := b] else old(Chain())
      ensures (forall b :: b in blocks ==> hasher.BlockAddr(b) != a) ==> ok && Chain() == old(Chain())
    {
      hide Rep, Tallied;
      Rows();
      var id := BlockId(tables.blocks, a);
      if id < 0 {
        forall b | b in blocks ensures hasher.BlockAddr(b) != a { RowOf(b); }
        return true;
      }
      ghost var x := blocks[id];
      AddressOfRow(id);
      KeepsFinalized(hasher, tables, contents, id);
      forall b | hasher.BlockAddr(b) == a ensures b == x { hasher.BlockAddrInjective(b, x); }
      var number := tables.blocks[id].header.number;
      if number in tables.finalized || id in tables.finalized.Values {
        forall m | m in tables.finalized && tables.finalized[m] == id ensures m == number {}
        assert number in Chain() && x == blocks[id];
        return false;
      }
      tables := tables.(finalized := tables.finalized[number := id]);
      return true;
    }

    /** The body of the transaction of `write_block`. */
    method InsertAndFinalize(b: Block) returns (ok: bool)
      requires Valid()
      modifies this
      ensures Valid()
      ensures ok <==> b.header.number !in old(Chain())
      ensures ok ==> Chain() == old(Chain())[b.header.number := b]
      ensures blocks == (if b in old(blocks) then old(blocks) else old(blocks) + [b]) && log == old(log) + multiset(b.sets)
      ensures tables.progress == old(tables).progress && tables.failed == old(tables).failed
      ensures Failures() == old(Failures()) && Progress() == old(Progress())
    {
      hide Rep, Tallied, FailuresOf;
      Rows();
      AppendKeepsChain(tables.finalized, blocks, b);
      ghost var t, c, bs := tables, contents, blocks;
      var a := InsertBlock(b);
      SameFailures(hasher, t, c, bs, tables, contents, blocks);
      ok := FinalizeBlock(a);
    }

    /** `write_block`: insert and finalize in one transaction, rolled back whole if either fails. */
    method WriteBlock(b: Block) returns (ok: bool)
      requires Valid()
      modifies this
      ensures Valid()
      ensures ok <==> b.header.number !in old(Chain())
      ensures ok ==> Chain() == old(Chain())[b.header.number := b]
      ensures ok ==> blocks == (if b in old(blocks) then old(blocks) else old(blocks) + [b]) && log == old(log) + multiset(b.sets)
      ensures tables.progress == old(tables).progress && tables.failed == old(tables).failed
      ensures Failures() == old(Failures()) && Progress() == old(Progress())
      ensures !ok ==> tables == old(tables) && blocks == old(blocks) && log == old(log)
    {
      var before := tables;
      ghost var were, count, held := blocks, log, contents;
      ok := InsertAndFinalize(b);
      if !ok {
        tables := before;
        blocks, log, contents := were, count, held;
      }
    }

    // -------------------------------------------------------------- get_solution_set, get_block

    lemma StoredSet(s: SolutionSet)
      requires Valid() && s in log
      ensures SetId(tables.sets, hasher.ofSet(s)) >= 0
      ensures SolutionsQuery(tables, hasher.ofSet(s)) == SolutionRows(SetId(tables.sets, hasher.ofSet(s)), s.solutions)
      ensures forall i :: 0 <= i < |s.solutions| ==>
        && ReadMutations(MutationsQuery(tables, hasher.ofSet(s), i)) == Repeat(s.solutions[i].mutations, log[s])
        && ReadData(DataQuery(tables, hasher.ofSet(s), i)) == Repeat(s.solutions[i].data, log[s])
    {
      var j :| 0 <= j < |contents.sets| && contents.sets[j].content == s;
      assert contents.sets[j] == Whole(s, log[s]);
      SolutionsOfSet(hasher, tables, contents, s, j);
      forall i | 0 <= i < |s.solutions|
        ensures ReadMutations(MutationsQuery(tables, hasher.ofSet(s), i)) == Repeat(s.solutions[i].mutations, log[s])
        ensures ReadData(DataQuery(tables, hasher.ofSet(s), i)) == Repeat(s.solutions[i].data, log[s])
      {
        MutationsOfSolution(hasher, tables, contents, s, j, i);
      }
    }

    /** Read a set back: its solutions in order, each with its mutations and predicate data. A set
        stored `n` times has `n` copies of both, since nothing stops those rows repeating.
     */
    method GetSolutionSet(a: Addr) returns (r: SolutionSet)
      requires Valid()
      ensures forall s :: s in log && hasher.ofSet(s) == a ==> r == Copied(s, log[s])
      ensures SetId(tables.sets, a) < 0 ==> r == SolutionSet([])
    {
      hide Rep, Tallied, Linked, SolutionsQuery, MutationsQuery, DataQuery, Copied;
      var rows := SolutionsQuery(tables, a);
      var solutions := [];
      for i := 0 to |rows|
        invariant |solutions| == i
        invariant forall k :: 0 <= k < i ==> solutions[k] == ReadSolution(tables, a, rows, k)
      {
        var found := MutationsQuery(tables, a, i);
        var mutations := [];
        for k := 0 to |found|
          invariant mutations == ReadMutations(found[..k])
        {
          mutations := mutations + [Mutation(Words.WordsFromBlob(found[k].key), Words.WordsFromBlob(found[k].value))];
        }
        assert found[..|found|] == found;
        var dataRows := DataQuery(tables, a, i);
        var data := [];
        for k := 0 to |dataRows|
          invariant data == ReadData(dataRows[..k])
        {
          data := data + [Words.WordsFromBlob(dataRows[k].value)];
        }
        assert dataRows[..|dataRows|] == dataRows;
        solutions := solutions + [Solution(PredicateAddress(rows[i].contract, rows[i].pred), data, mutations)];
      }
      r := SolutionSet(solutions);
      IsReadBack(a, r);
    }

    lemma IsReadBack(a: Addr, r: SolutionSet)
      requires Valid()
      requires |r.solutions| == |SolutionsQuery(tables, a)|
      requires forall k :: 0 <= k < |r.solutions| ==> r.solutions[k] == ReadSolution(tables, a, SolutionsQuery(tables, a), k)
      ensures forall s :: s in log && hasher.ofSet(s) == a ==> r == Copied(s, log[s])
      ensures SetId(tables.sets, a) < 0 ==> r == SolutionSet([])
    {
      hide Rep, Tallied, Linked;
      forall s | s in log && hasher.ofSet(s) == a ensures r == Copied(s, log[s]) {
        StoredSet(s);
        forall k | 0 <= k < |r.solutions| ensures r.solutions[k] == Copied(s, log[s]).solutions[k] {}
      }
      if SetId(tables.sets, a) < 0 {
        WhereNone(tables.solutions, (r: SolutionRow) => r.sid == -1);
      }
    }

    method GetBlockHeader(a: Addr) returns (r: Option<Header>)
      requires Valid()
      ensures forall b :: b in blocks && hasher.BlockAddr(b) == a ==> r == Some(b.header)
      ensures r.Some? ==> exists b :: b in blocks && hasher.BlockAddr(b) == a
    {
      Rows();
      var id := BlockId(tables.blocks, a);
      forall b | hasher.BlockAddr(b) == a && b in blocks ensures id >= 0 && blocks[id] == b { RowOf(b); }
      if id < 0 {
        return None;
      }
      assert contents.blocks[id].block == blocks[id] && blocks[id] in blocks;
      return Some(tables.blocks[id].header);
    }

    lemma StoredLinks(b: Block)
      requires Valid() && b in blocks
      ensures
        var links := LinksQuery(tables, BlockId(tables.blocks, hasher.BlockAddr(b)));
        && |links| == |b.sets|
        && forall q :: 0 <= q < |b.sets| ==>
             links[q].sid < |tables.sets| && tables.sets[links[q].sid] == hasher.ofSet(b.sets[q]) && b.sets[q] in log
    {
      RowOf(b);
      var i := BlockId(tables.blocks, hasher.BlockAddr(b));
      assert contents.blocks[i] == BlockEntry(b, |b.sets|);
      LinksOfBlock(hasher, tables, contents, i);
      forall q | 0 <= q < |b.sets| ensures b.sets[q] in log {
        assert LinkMatches(LinksQuery(tables, i)[q], contents.sets, i, q, b.sets[q]);
      }
    }

    /** What a stored block reads back as. */
    ghost function ReadBack(b: Block): Block
      reads this`log
    {
      ReadBackOf(log, b)
    }

    /** Read a block by address. A block without sets still joins to one row, whose set address is
        NULL, and reading that column is an error.
     */
    method GetBlock(a: Addr) returns (r: Result<Option<Block>, QueryError>)
      requires Valid()
      ensures forall b :: b in blocks && hasher.BlockAddr(b) == a ==>
        r == if b.sets == [] then Err(NullColumn) else Ok(Some(ReadBack(b)))
      ensures (forall b :: b in blocks ==> hasher.BlockAddr(b) != a) ==> r == Ok(None)
    {
      hide Rep, Tallied, Linked, LinksQuery, Copied;
      var header := GetBlockHeader(a);
      if header.None? {
        return Ok(None);
      }
      ghost var b :| b in blocks && hasher.BlockAddr(b) == a;
      forall x | hasher.BlockAddr(x) == a ensures x == b { hasher.BlockAddrInjective(x, b); }
      StoredLinks(b);
      var links := LinksQuery(tables, BlockId(tables.blocks, a));
      if links == [] {
        return Err(NullColumn);
      }
      var sets := [];
      for q := 0 to |links|
        invariant |sets| == q
        invariant forall k :: 0 <= k < q ==> sets[k] == Copied(b.sets[k], log[b.sets[k]])
      {
        var s := GetSolutionSet(tables.sets[links[q].sid]);
        sets := sets + [s];
      }
      assert Block(header.value, sets) == ReadBack(b);
      return Ok(Some(Block(header.value, sets)));
    }

    // -------------------------------------------------------------- list_blocks

    /** One turn of the grouping loop: begin a block if the address is new, then read the row's set. */
    method Group(found: seq<Block>, last: Option<Addr>, row: ListRow, ghost s: SolutionSet) returns (more: seq<Block>)
      requires Valid() && s in log && row.content == Some(hasher.ofSet(s))
      requires last.Some? ==> found != []
      ensures
        var copied := Copied(s, log[s]);
        more == if last == Some(row.address) then found[|found| - 1 := found[|found| - 1].(sets := found[|found| - 1].sets + [copied])]
                else found + [Block(row.header, [copied])]
    {
      hide Rep, Tallied, Linked, Copied;
      more := if last == Some(row.address) then found else found + [Block(row.header, [])];
      var set_ := GetSolutionSet(row.content.value);
      var current := more[|more| - 1];
      assert [] + [set_] == [set_];
      assert last != Some(row.address) ==>
        more[|more| - 1 := current.(sets := current.sets + [set_])] == found + [current.(sets := [] + [set_])];
      more := more[|more| - 1 := current.(sets := current.sets + [set_])];
    }

    /** The grouping loop of `list_blocks`: the rows arrive sorted, and a new block begins whenever the address
        differs from that of the row before.
     */
    method GroupRows(rows: seq<ListRow>, ghost lo: int, ghost hi: int) returns (r: Result<seq<Block>, QueryError>)
      requires Valid() && rows == Flatten(hasher, Listed(hasher, blocks, lo, hi))
      ensures r.Err? <==> exists b :: b in Listed(hasher, blocks, lo, hi) && b.sets == []
      ensures r.Ok? ==> |r.value| == |Listed(hasher, blocks, lo, hi)|
      ensures r.Ok? ==> forall i :: 0 <= i < |r.value| ==> r.value[i] == ReadBack(Listed(hasher, blocks, lo, hi)[i])
    {
      hide *;
      ghost var listed := Listed(hasher, blocks, lo, hi);
      var found: seq<Block>, last: Option<Addr> := [], None;
      ghost var p, q := 0, 0;
      AtRowStart(hasher, listed);
      GroupedStart(listed);
      for k := 0 to |rows|
        invariant p <= |listed| && (q > 0 ==> p < |listed|)
        invariant AtRow(hasher, listed, k, p, q)
        invariant Grouped(listed, found, last, p, q)
      {
        AtRowStep(hasher, listed, k, p, q);
        var row := rows[k];
        ghost var b := listed[p];
        if row.content.None? {
          return Err(NullColumn);
        }
        LastAddress(lo, hi, found, last, p, q);
        ghost var before := found;
        found := Group(found, last, row, b.sets[q]);
        GroupedStep(listed, before, last, p, q, found);
        last := Some(row.address);
        if q + 1 == |b.sets| {
          p, q := p + 1, 0;
        } else {
          q := q + 1;
        }
      }
      AtRowEnd(hasher, listed, |rows|, p, q);
      GroupedEnd(listed, found, last, p, q);
      return Ok(found);
    }

    /** List the blocks numbered within a range: each stored block in it once, as it reads back, by number, and for
        one number by address as bytes compare.
     */
    method ListBlocks(lo: int, hi: int) returns (r: Result<seq<Block>, QueryError>)
      requires Valid()
      ensures r.Err? <==> exists b :: b in blocks && lo <= b.header.number < hi && b.sets == []
      ensures r.Ok? ==> |r.value| == |Listed(hasher, blocks, lo, hi)|
      ensures r.Ok? ==> forall i :: 0 <= i < |r.value| ==> r.value[i] == ReadBack(Listed(hasher, blocks, lo, hi)[i])
      ensures forall b :: b in Listed(hasher, blocks, lo, hi) <==> b in blocks && lo <= b.header.number < hi
      ensures
        var listed := Listed(hasher, blocks, lo, hi);
        forall i, j :: 0 <= i < j < |listed| ==>
          && (r.Ok? ==> r.value[i].header.number <= r.value[j].header.number)
          && (listed[i].header.number == listed[j].header.number ==> Precedes(hasher.BlockAddr(listed[i]), hasher.BlockAddr(listed[j])))
    {
      hide Rep, Tallied, Linked, Listed, Flatten, ListQuery, Precedes;
      ListQueryIs(hasher, tables, contents, blocks, lo, hi);
      ListedRight(lo, hi);
      r := GroupRows(ListQuery(tables, lo, hi), lo, hi);
    }

    /** The listed blocks are those in range, and come in the order of numbers and addresses. */
    lemma ListedRight(lo: int, hi: int)
      requires Valid()
      ensures
        var listed := Listed(hasher, blocks, lo, hi);
        && (forall b :: b in listed <==> b in blocks && lo <= b.header.number < hi)
        && forall i, j :: 0 <= i < j < |listed| ==>
             && listed[i].header.number <= listed[j].header.number
             && (listed[i].header.number == listed[j].header.number ==> Precedes(hasher.BlockAddr(listed[i]), hasher.BlockAddr(listed[j])))
    {
      Rows();
      hide Rep, Tallied, Linked, Listed;
      ListedInOrder(hasher, blocks, lo, hi);
      var listed := Listed(hasher, blocks, lo, hi);
      forall i, j | 0 <= i < j < |listed| && listed[i].header.number == listed[j].header.number
        ensures Precedes(hasher.BlockAddr(listed[i]), hasher.BlockAddr(listed[j]))
      {
        ListedDistinct(hasher, blocks, lo, hi, i, j);
        if hasher.BlockAddr(listed[i]) == hasher.BlockAddr(listed[j]) {
          hasher.BlockAddrInjective(listed[i], listed[j]);
        }
      }
    }

    /** After `q` rows of block `p`: the blocks before it are complete, and it has its first `q` sets. */
    ghost predicate Grouped(listed: seq<Block>, found: seq<Block>, last: Option<Addr>, p: nat, q: nat)
      requires p <= |listed| && (q > 0 ==> p < |listed|)
      reads this
    {
      && |found| == p + (if q > 0 then 1 else 0)
      && (forall i :: 0 <= i < p ==> listed[i].sets != [] && found[i] == ReadBack(listed[i]))
      && (q > 0 ==> q < |listed[p].sets| && found[p] == ReadBack(listed[p]).(sets := ReadBack(listed[p]).sets[..q]))
      && last == if q > 0 then Some(hasher.BlockAddr(listed[p])) else if p > 0 then Some(hasher.BlockAddr(listed[p - 1])) else None
    }

    lemma GroupedStart(listed: seq<Block>)
      ensures Grouped(listed, [], None, 0, 0)
    {
    }

    lemma GroupedEnd(listed: seq<Block>, found: seq<Block>, last: Option<Addr>, p: nat, q: nat)
      requires p == |listed| && q == 0 && Grouped(listed, found, last, p, q)
      ensures |found| == |listed| && forall i :: 0 <= i < |listed| ==> listed[i].sets != [] && found[i] == ReadBack(listed[i])
    {
    }

    /** The address of the row before tells whether this row continues its block. */
    lemma LastAddress(lo: int, hi: int, found: seq<Block>, last: Option<Addr>, p: nat, q: nat)
      requires Valid() && p < |Listed(hasher, blocks, lo, hi)| && q < |Listed(hasher, blocks, lo, hi)[p].sets|
      requires Grouped(Listed(hasher, blocks, lo, hi), found, last, p, q)
      ensures Listed(hasher, blocks, lo, hi)[p].sets[q] in log
      ensures last.Some? ==> found != []
      ensures last == Some(hasher.BlockAddr(Listed(hasher, blocks, lo, hi)[p])) <==> q > 0
    {
      hide Rep, Tallied, Linked, Listed, ReadBack, LinksQuery;
      Rows();
      ListedIsOrdered(hasher, blocks, lo, hi);
      var listed := Listed(hasher, blocks, lo, hi);
      assert listed[p] in listed;
      StoredLinks(listed[p]);
      if p > 0 {
        ListedDistinct(hasher, blocks, lo, hi, p - 1, p);
        if hasher.BlockAddr(listed[p - 1]) == hasher.BlockAddr(listed[p]) {
          hasher.BlockAddrInjective(listed[p - 1], listed[p]);
        }
      }
    }

    lemma GroupedStep(listed: seq<Block>, found: seq<Block>, last: Option<Addr>, p: nat, q: nat, more: seq<Block>)
      requires p < |listed| && q < |listed[p].sets| && Grouped(listed, found, last, p, q)
      requires
        var copied := Copied(listed[p].sets[q], log[listed[p].sets[q]]);
        more == if q > 0 then found[|found| - 1 := found[|found| - 1].(sets := found[|found| - 1].sets + [copied])]
                else found + [Block(listed[p].header, [copied])]
      ensures
        var at := Some(hasher.BlockAddr(listed[p]));
        if q + 1 == |listed[p].sets| then Grouped(listed, more, at, p + 1, 0) else Grouped(listed, more, at, p, q + 1)
    {
      hide Copied;
      var whole := ReadBack(listed[p]).sets;
      assert whole[..q] + [whole[q]] == whole[..q + 1];
      assert whole[..|whole|] == whole;
    }

    // -------------------------------------------------------------- pointers into the chain

    /** Every stored block is finalized, as when blocks are only ever stored by `write_block`. */
    ghost predicate Synced()
      requires Valid()
      reads this
    {
      forall b :: b in blocks ==> b.header.number in Chain() && Chain()[b.header.number] == b
    }

    ghost function Progress(): Option<Block>
      requires Valid()
      reads this
    {
      if tables.progress.Some? && tables.progress.value < |blocks| then Some(blocks[tables.progress.value]) else None
    }

    /** The `failed_block` table, row by row. */
    ghost function Failures(): FailureRows
      requires Valid()
      reads this
    {
      FailuresOf(tables.failed, blocks, contents.sets)
    }

    /** `get_latest_finalized_block_address`. */
    method GetLatestFinalized() returns (r: Option<Addr>)
      requires Valid()
      ensures r == if Chain() == map[] then None else Some(hasher.BlockAddr(Chain()[Newest(Chain())]))
    {
      Rows();
      if tables.finalized == map[] {
        assert Chain() == map[];
        return None;
      }
      Greatest.Exists(tables.finalized.Keys);
      var n :| n in tables.finalized && forall m :: m in tables.finalized ==> m <= n;
      assert Chain().Keys == tables.finalized.Keys && n in Chain();
      assert Newest(Chain()) == n;
      assert contents.blocks[tables.finalized[n]].block == Chain()[n];
      return Some(tables.blocks[tables.finalized[n]].address);
    }

    /** `get_next_block_addresses`: whatever blocks carry the number after the given block's. */
    method GetNextBlockAddresses(a: Addr) returns (r: seq<Addr>)
      requires Valid()
      ensures forall b :: b in blocks && hasher.BlockAddr(b) == a ==>
        r == Addresses(Where(blocks, NumberIs(b.header.number + 1)))
      ensures (forall b :: b in blocks ==> hasher.BlockAddr(b) != a) ==> r == []
    {
      hide Rep, Tallied, Linked, Where, Addresses;
      RowAt(a);
      var id := BlockId(tables.blocks, a);
      if id < 0 {
        return [];
      }
      r := AddressesOf(tables.blocks[id].header.number + 1);
    }

    /** What the row found for an address stands for. */
    lemma RowAt(a: Addr)
      requires Valid()
      ensures
        var id := BlockId(tables.blocks, a);
        if id < 0 then forall b :: b in blocks ==> hasher.BlockAddr(b) != a
        else
          && id < |blocks| == |tables.blocks| && tables.blocks[id].header == blocks[id].header
          && blocks[id] in blocks && hasher.BlockAddr(blocks[id]) == a
          && forall b :: b in blocks && hasher.BlockAddr(b) == a ==> b == blocks[id]
    {
      Rows();
      hide Rep, Tallied, Linked;
      var id := BlockId(tables.blocks, a);
      forall b | b in blocks && hasher.BlockAddr(b) == a ensures id >= 0 && blocks[id] == b { RowOf(b); }
      if id >= 0 {
        AddressOfRow(id);
      }
    }

    /** The addresses of all blocks with a number, in the order of their rows. */
    method AddressesOf(n: int) returns (r: seq<Addr>)
      requires Valid()
      ensures r == Addresses(Where(blocks, NumberIs(n)))
    {
      Rows();
      hide Rep, Tallied, Linked, Where, Addresses;
      NoAddresses(n);
      r := [];
      for k := 0 to |tables.blocks|
        invariant r == Addresses(Where(blocks[..k], NumberIs(n)))
      {
        OneMoreAddress(k, n);
        AddressOfRow(k);
        if tables.blocks[k].header.number == n {
          r := r + [tables.blocks[k].address];
        }
      }
      assert blocks[..|blocks|] == blocks;
    }

    lemma NoAddresses(n: int)
      ensures Addresses(Where(blocks[..0], NumberIs(n))) == []
    {
    }

    lemma OneMoreAddress(k: nat, n: int)
      requires k < |blocks|
      ensures Addresses(Where(blocks[..k + 1], NumberIs(n))) ==
        Addresses(Where(blocks[..k], NumberIs(n))) + if blocks[k].header.number == n then [hasher.BlockAddr(blocks[k])] else []
    {
      assert blocks[..k + 1][..k] == blocks[..k];
    }

    lemma AddressOfRow(k: nat)
      requires Valid() && k < |blocks|
      ensures k < |tables.blocks| && tables.blocks[k] == BlockRow(hasher.BlockAddr(blocks[k]), blocks[k].header)
    {
      assert contents.blocks[k].block == blocks[k];
    }

    ghost function Addresses(bs: seq<Block>): seq<Addr> {
      seq(|bs|, i requires 0 <= i < |bs| => hasher.BlockAddr(bs[i]))
    }

    method GetValidationProgress() returns (r: Option<Addr>)
      requires Valid()
      ensures r == if Progress().Some? then Some(hasher.BlockAddr(Progress().value)) else None
    {
      Rows();
      if tables.progress.None? {
        return None;
      }
      AddressOfRow(tables.progress.value);
      return Some(tables.blocks[tables.progress.value].address);
    }

    /** `update_validation_progress`: replace the single row; an unknown address is an error. */
    method UpdateValidationProgress(a: Addr) returns (ok: bool)
      requires Valid()
      modifies this`tables
      ensures Valid()
      ensures tables == old(tables).(progress := tables.progress)
      ensures Chain() == old(Chain()) && Failures() == old(Failures()) && Synced() == old(Synced())
      ensures forall b :: b in blocks && hasher.BlockAddr(b) == a ==> ok && Progress() == Some(b)
      ensures (forall b :: b in blocks ==> hasher.BlockAddr(b) != a) ==> !ok
      ensures !ok ==> tables == old(tables)
    {
      Rows();
      var id := BlockId(tables.blocks, a);
      forall b | b in blocks && hasher.BlockAddr(b) == a ensures id >= 0 && blocks[id] == b { RowOf(b); }
      if id < 0 {
        return false;
      }
      assert contents.blocks[id].block == blocks[id] && blocks[id] in blocks;
      tables := tables.(progress := Some(id));
      return true;
    }

    /** `insert_failed_block`: one row for each failed set of a block, however often it fails. */
    method InsertFailedBlock(a: Addr, s: Addr)
      requires Valid()
      modifies this`tables
      ensures Valid()
      ensures tables == old(tables).(failed := tables.failed)
      ensures Chain() == old(Chain()) && Progress() == old(Progress()) && Synced() == old(Synced())
      ensures forall b, x :: b in blocks && x in log && hasher.BlockAddr(b) == a && hasher.ofSet(x) == s ==>
        Failures() == if (b, x) in old(Failures()) then old(Failures()) else old(Failures()) + [(b, x)]
      ensures (forall b :: b in blocks ==> hasher.BlockAddr(b) != a) || (forall x :: x in log ==> hasher.ofSet(x) != s) ==>
        tables == old(tables)
    {
      hide *;
      var block, sid := BlockId(tables.blocks, a), SetId(tables.sets, s);
      RowsOf(a, s);
      if 0 <= block && 0 <= sid {
        PutFailedRow(block, sid);
      }
    }

    lemma RowsAreStored(a: Addr, s: Addr)
      requires Valid()
      ensures BlockId(tables.blocks, a) >= 0 ==> exists b :: b in blocks && hasher.BlockAddr(b) == a
      ensures SetId(tables.sets, s) >= 0 ==> exists x :: x in log && hasher.ofSet(x) == s
    {
      Rows();
      var block, sid := BlockId(tables.blocks, a), SetId(tables.sets, s);
      if block >= 0 {
        assert contents.blocks[block].block == blocks[block] && blocks[block] in blocks;
      }
      if sid >= 0 {
        assert contents.sets[sid].content in log;
      }
    }

    lemma RowsOf(a: Addr, s: Addr)
      requires Valid()
      ensures BlockId(tables.blocks, a) < |blocks| && SetId(tables.sets, s) < |contents.sets|
      ensures forall b :: b in blocks && hasher.BlockAddr(b) == a ==>
        BlockId(tables.blocks, a) >= 0 && blocks[BlockId(tables.blocks, a)] == b
      ensures forall x :: x in log && hasher.ofSet(x) == s ==>
        SetId(tables.sets, s) >= 0 && contents.sets[SetId(tables.sets, s)].content == x
      ensures BlockId(tables.blocks, a) >= 0 ==> exists b :: b in blocks && hasher.BlockAddr(b) == a
      ensures SetId(tables.sets, s) >= 0 ==> exists x :: x in log && hasher.ofSet(x) == s
    {
      RowsAreStored(a, s);
      Rows();
      hide Rep, Tallied, Linked;
      SetIdIn(hasher, tables, contents, SolutionSet([]));
      forall b | b in blocks && hasher.BlockAddr(b) == a
        ensures BlockId(tables.blocks, a) >= 0 && blocks[BlockId(tables.blocks, a)] == b { RowOf(b); }
      forall x | x in log && hasher.ofSet(x) == s
        ensures SetId(tables.sets, s) >= 0 && contents.sets[SetId(tables.sets, s)].content == x
      {
        StoredSet(x);
        SetIdIn(hasher, tables, contents, x);
      }
    }

    /** `INSERT OR IGNORE INTO failed_block`, unique on both columns. */
    method PutFailedRow(block: nat, sid: nat)
      requires Valid() && block < |blocks| && sid < |contents.sets|
      modifies this`tables
      ensures Valid()
      ensures tables == old(tables).(failed := tables.failed)
      ensures Chain() == old(Chain()) && Progress() == old(Progress()) && Synced() == old(Synced())
      ensures
        var pair := (blocks[block], contents.sets[sid].content);
        Failures() == if pair in old(Failures()) then old(Failures()) else old(Failures()) + [pair]
    {
      hide Rep, Tallied;
      FailedRowIs(block, sid);
      Rows();
      KeepsFailedRow(hasher, tables, contents, FailedRow(block, sid));
      if FailedRow(block, sid) !in tables.failed {
        tables := tables.(failed := tables.failed + [FailedRow(block, sid)]);
        assert Failures()[..|old(Failures())|] == old(Failures());
      }
    }

    lemma FailedRowIs(block: nat, sid: nat)
      requires Valid() && block < |blocks| && sid < |contents.sets|
      ensures FailedRow(block, sid) in tables.failed <==> (blocks[block], contents.sets[sid].content) in Failures()
    {
      Rows();
      SetIdIn(hasher, tables, contents, contents.sets[sid].content);
      assert |tables.failed| == |Failures()|;
      forall k | 0 <= k < |tables.failed|
        ensures tables.failed[k] == FailedRow(block, sid) <==> Failures()[k] == (blocks[block], contents.sets[sid].content)
      {
        assert tables.failed[k].block < |blocks| && tables.failed[k].sid < |contents.sets|;
      }
      if FailedRow(block, sid) in tables.failed {
        var k :| 0 <= k < |tables.failed| && tables.failed[k] == FailedRow(block, sid);
        assert Failures()[k] in Failures();
      }
      if (blocks[block], contents.sets[sid].content) in Failures() {
        var k :| 0 <= k < |Failures()| && Failures()[k] == (blocks[block], contents.sets[sid].content);
        assert tables.failed[k] in tables.failed;
      }
    }
  }

  /** Rows of `failed_block` as the blocks and sets they stand for. */
  ghost function FailuresOf(failed: seq<FailedRow>, blocks: seq<Block>, sets: seq<SetEntry>): FailureRows {
    seq(|failed|, k requires 0 <= k < |failed| =>
      if failed[k].block < |blocks| && failed[k].sid < |sets|
      then (blocks[failed[k].block], sets[failed[k].sid].content)
      else (Block(Header(0, Timestamp(0, 0)), []), SolutionSet([])))
  }

  /** Storing more changes neither what the failed rows stand for nor what progress does. */
  lemma SameFailures(h: Hasher, t: Tables, c: Contents, blocks: seq<Block>, u: Tables, d: Contents, more: seq<Block>)
    requires h.CollisionFree() && Rep(h, t, c) && Rep(h, u, d) && t.sets <= u.sets && blocks <= more
    requires |c.blocks| == |blocks| && u.failed == t.failed
    ensures FailuresOf(u.failed, more, d.sets) == FailuresOf(t.failed, blocks, c.sets)
  {
    forall k | 0 <= k < |t.failed|
      ensures FailuresOf(u.failed, more, d.sets)[k] == FailuresOf(t.failed, blocks, c.sets)[k]
    {
      var row := t.failed[k];
      assert row.block < |blocks| && row.sid < |c.sets|;
      assert h.ofSet(c.sets[row.sid].content) == t.sets[row.sid] == u.sets[row.sid] == h.ofSet(d.sets[row.sid].content);
    }
  }

  /** What a block reads back as when each set has been stored as often as `log` says. */
  ghost function ReadBackOf(log: multiset<SolutionSet>, b: Block): (r: Block)
    ensures r.header == b.header && |r.sets| == |b.sets|
  {
    b.(sets := seq(|b.sets|, q requires 0 <= q < |b.sets| => Copied(b.sets[q], log[b.sets[q]])))
  }

  function NumberIs(n: int): Block -> bool {
    (b: Block) => b.header.number == n
  }

  lemma AppendKeepsChain(finalized: map<int, nat>, blocks: seq<Block>, b: Block)
    requires forall n :: n in finalized ==> finalized[n] < |blocks|
    ensures ChainOf(finalized, blocks + [b]) == ChainOf(finalized, blocks)
  {
    var more := ChainOf(finalized, blocks + [b]);
    assert more.Keys == ChainOf(finalized, blocks).Keys;
    assert forall n :: n in more ==> more[n] == blocks[finalized[n]];
  }

  ghost function ChainOf(finalized: map<int, nat>, blocks: seq<Block>): Chain
    requires forall n :: n in finalized ==> finalized[n] < |blocks|
  {
    map n | n in finalized :: blocks[finalized[n]]
  }
}
