/** The relational tables, and what they have to hold.

    A row's `id INTEGER PRIMARY KEY` is its position, since rows are only ever appended. The
    `finalized_block` table is keyed by block number. `Contents` is the ghost account of what has been
    stored so far, at the granularity of the insert loops, and `Rep` says the tables hold it.
 */
module Tables {
  import opened Types
  import opened Rows
  import Words

  datatype BlockRow = BlockRow(address: Addr, header: Header)
  datatype LinkRow = LinkRow(block: nat, sid: nat, index: nat)
  datatype SolutionRow = SolutionRow(sid: nat, index: nat, contract: Addr, pred: Addr)
  datatype MutationRow = MutationRow(solution: nat, index: nat, key: Blob, value: Blob)
  datatype DataRow = DataRow(solution: nat, index: nat, value: Blob)
  datatype FailedRow = FailedRow(block: nat, sid: nat)

  datatype Tables = Tables(
    blocks: seq<BlockRow>,           // block
    sets: seq<Addr>,                 // solution_set
    links: seq<LinkRow>,             // block_solution_set
    solutions: seq<SolutionRow>,     // solution
    mutations: seq<MutationRow>,     // mutation
    data: seq<DataRow>,              // pred_data
    finalized: map<int, nat>,        // finalized_block
    failed: seq<FailedRow>,          // failed_block
    progress: Option<nat>)           // validation_progress

  const EMPTY := Tables([], [], [], [], [], [], map[], [], None)

  // ---------------------------------------------------------------- selections

  function BlockId(blocks: seq<BlockRow>, a: Addr): int {
    First(blocks, (r: BlockRow) => r.address == a)
  }

  function SetId(sets: seq<Addr>, a: Addr): int {
    First(sets, (r: Addr) => r == a)
  }

  function SolutionId(solutions: seq<SolutionRow>, sid: int, index: int): int {
    First(solutions, (r: SolutionRow) => r.sid == sid && r.index == index)
  }

  function LinksOf(links: seq<LinkRow>, block: int): seq<LinkRow> {
    Where(links, (r: LinkRow) => r.block == block)
  }

  function SolutionsOf(solutions: seq<SolutionRow>, sid: int): seq<SolutionRow> {
    Where(solutions, (r: SolutionRow) => r.sid == sid)
  }

  function MutationsOf(mutations: seq<MutationRow>, solution: int): seq<MutationRow> {
    Where(mutations, (r: MutationRow) => r.solution == solution)
  }

  function DataOf(data: seq<DataRow>, solution: int): seq<DataRow> {
    Where(data, (r: DataRow) => r.solution == solution)
  }

  // ---------------------------------------------------------------- insert statements

  /** `INSERT OR IGNORE INTO block`, ignored when the address is present. */
  function PutBlockRow(blocks: seq<BlockRow>, a: Addr, header: Header): seq<BlockRow> {
    if BlockId(blocks, a) >= 0 then blocks else blocks + [BlockRow(a, header)]
  }

  /** `INSERT OR IGNORE INTO solution_set`. */
  function PutSetRow(sets: seq<Addr>, a: Addr): seq<Addr> {
    if SetId(sets, a) >= 0 then sets else sets + [a]
  }

  /** `INSERT OR IGNORE INTO block_solution_set`, unique on all three columns. */
  function PutLinkRow(links: seq<LinkRow>, row: LinkRow): seq<LinkRow> {
    if row in links then links else links + [row]
  }

  /** `INSERT OR IGNORE INTO solution`, unique on the set and the index. */
  function PutSolutionRow(solutions: seq<SolutionRow>, row: SolutionRow): seq<SolutionRow> {
    if SolutionId(solutions, row.sid, row.index) >= 0 then solutions else solutions + [row]
  }

  // ---------------------------------------------------------------- the rows of one solution

  function SolutionRowOf(sid: nat, index: nat, s: Solution): SolutionRow {
    SolutionRow(sid, index, s.solves.contract, s.solves.pred)
  }

  function SolutionRows(sid: nat, solutions: seq<Solution>): seq<SolutionRow> {
    seq(|solutions|, i requires 0 <= i < |solutions| => SolutionRowOf(sid, i, solutions[i]))
  }

  function MutationRows(solution: nat, ms: seq<Mutation>): seq<MutationRow> {
    seq(|ms|, i requires 0 <= i < |ms| =>
      MutationRow(solution, i, Words.BlobFromWords(ms[i].key), Words.BlobFromWords(ms[i].value)))
  }

  function DataRows(solution: nat, data: seq<Value>): seq<DataRow> {
    seq(|data|, i requires 0 <= i < |data| => DataRow(solution, i, Words.BlobFromWords(data[i])))
  }

  /** Everything stored for one solution: its row unless present, then its mutations and data. */
  function PutSolution(t: Tables, sid: nat, index: nat, s: Solution): (u: Tables)
    ensures u == t.(solutions := u.solutions, mutations := u.mutations, data := u.data)
  {
    var solutions := PutSolutionRow(t.solutions, SolutionRowOf(sid, index, s));
    var id := SolutionId(solutions, sid, index);
    if id < 0 then t
    else
      t.(solutions := solutions,
         mutations := t.mutations + MutationRows(id, s.mutations),
         data := t.data + DataRows(id, s.data))
  }

  // ---------------------------------------------------------------- what the tables hold

  /** A stored block, of whose sets the first `linked` have been linked to it. */
  datatype BlockEntry = BlockEntry(block: Block, linked: nat)

  /** A stored set, of whose solutions the first `have` are stored; `copies[i]` counts how often the
      mutation and predicate data rows of solution `i` have been stored.
   */
  datatype SetEntry = SetEntry(content: SolutionSet, have: nat, copies: seq<nat>)

  datatype Contents = Contents(blocks: seq<BlockEntry>, sets: seq<SetEntry>)

  ghost predicate RepBlocks(h: Hasher, rows: seq<BlockRow>, blocks: seq<BlockEntry>) {
    && |rows| == |blocks|
    && (forall i :: 0 <= i < |blocks| ==> rows[i] == BlockRow(h.BlockAddr(blocks[i].block), blocks[i].block.header))
    && (forall i, j :: 0 <= i < j < |blocks| ==> blocks[i].block != blocks[j].block)
  }

  ghost predicate RepSets(h: Hasher, rows: seq<Addr>, sets: seq<SetEntry>) {
    && |rows| == |sets|
    && (forall j :: 0 <= j < |sets| ==> rows[j] == h.ofSet(sets[j].content) && GoodEntry(sets[j]))
    && (forall i, j :: 0 <= i < j < |sets| ==> sets[i].content != sets[j].content)
  }

  ghost predicate GoodEntry(e: SetEntry) {
    && e.have <= |e.content.solutions| == |e.copies|
    && forall i :: e.have <= i < |e.copies| ==> e.copies[i] == 0
  }

  /** The first `linked` sets of block `i`, in order. */
  ghost predicate LinksMatch(rows: seq<LinkRow>, sets: seq<SetEntry>, i: int, e: BlockEntry) {
    && |rows| == e.linked <= |e.block.sets|
    && forall q :: 0 <= q < e.linked ==> LinkMatches(rows[q], sets, i, q, e.block.sets[q])
  }

  ghost predicate LinkMatches(row: LinkRow, sets: seq<SetEntry>, i: int, q: int, s: SolutionSet) {
    row.block == i && row.index == q && row.sid < |sets| && sets[row.sid].content == s
  }

  ghost predicate RepLinks(links: seq<LinkRow>, blocks: seq<BlockEntry>, sets: seq<SetEntry>) {
    && (forall i :: 0 <= i < |blocks| ==> LinksMatch(LinksOf(links, i), sets, i, blocks[i]))
    && (forall k :: 0 <= k < |links| ==> links[k].block < |blocks|)
  }

  ghost predicate RowInEntry(row: SolutionRow, sets: seq<SetEntry>) {
    row.sid < |sets| && GoodEntry(sets[row.sid]) && row.index < sets[row.sid].have
  }

  ghost function SolutionAt(row: SolutionRow, sets: seq<SetEntry>): Solution
    requires RowInEntry(row, sets)
  {
    sets[row.sid].content.solutions[row.index]
  }

  ghost function CopiesAt(row: SolutionRow, sets: seq<SetEntry>): nat
    requires RowInEntry(row, sets)
  {
    sets[row.sid].copies[row.index]
  }

  ghost predicate RepSolutions(rows: seq<SolutionRow>, sets: seq<SetEntry>) {
    && (forall j :: 0 <= j < |sets| ==> GoodEntry(sets[j]) && SolutionsMatch(rows, j, sets[j]))
    && (forall r :: 0 <= r < |rows| ==> RowInEntry(rows[r], sets))
    && (forall r, s :: 0 <= r < s < |rows| ==> rows[r].sid != rows[s].sid || rows[r].index != rows[s].index)
  }

  ghost predicate SolutionsMatch(rows: seq<SolutionRow>, j: nat, e: SetEntry)
    requires GoodEntry(e)
  {
    SolutionsOf(rows, j) == SolutionRows(j, e.content.solutions[..e.have])
  }

  ghost predicate RepMutations(mutations: seq<MutationRow>, solutions: seq<SolutionRow>, sets: seq<SetEntry>) {
    && (forall r :: 0 <= r < |solutions| && RowInEntry(solutions[r], sets) ==>
          MutationsMatch(mutations, r, SolutionAt(solutions[r], sets), CopiesAt(solutions[r], sets)))
    && (forall m :: 0 <= m < |mutations| ==> mutations[m].solution < |solutions|)
  }

  ghost predicate MutationsMatch(mutations: seq<MutationRow>, r: nat, s: Solution, copies: nat) {
    MutationsOf(mutations, r) == Repeat(MutationRows(r, s.mutations), copies)
  }

  ghost predicate RepData(data: seq<DataRow>, solutions: seq<SolutionRow>, sets: seq<SetEntry>) {
    && (forall r :: 0 <= r < |solutions| && RowInEntry(solutions[r], sets) ==>
          DataMatch(data, r, SolutionAt(solutions[r], sets), CopiesAt(solutions[r], sets)))
    && (forall m :: 0 <= m < |data| ==> data[m].solution < |solutions|)
  }

  ghost predicate DataMatch(data: seq<DataRow>, r: nat, s: Solution, copies: nat) {
    DataOf(data, r) == Repeat(DataRows(r, s.data), copies)
  }

  ghost predicate RepPointers(t: Tables, blocks: seq<BlockEntry>, sets: seq<SetEntry>) {
    && (forall n :: n in t.finalized ==> t.finalized[n] < |blocks| && blocks[t.finalized[n]].block.header.number == n)
    && (t.progress.Some? ==> t.progress.value < |blocks|)
    && (forall k :: 0 <= k < |t.failed| ==> t.failed[k].block < |blocks| && t.failed[k].sid < |sets|)
  }

  ghost predicate Rep(h: Hasher, t: Tables, c: Contents) {
    && RepBlocks(h, t.blocks, c.blocks)
    && RepSets(h, t.sets, c.sets)
    && RepLinks(t.links, c.blocks, c.sets)
    && RepSolutions(t.solutions, c.sets)
    && RepMutations(t.mutations, t.solutions, c.sets)
    && RepData(t.data, t.solutions, c.sets)
    && RepPointers(t, c.blocks, c.sets)
  }

  // ---------------------------------------------------------------- lookups by address

  lemma BlockIdOf(h: Hasher, rows: seq<BlockRow>, blocks: seq<BlockEntry>, b: Block)
    requires h.CollisionFree() && RepBlocks(h, rows, blocks)
    ensures
      var id := BlockId(rows, h.BlockAddr(b));
      if id >= 0 then blocks[id].block == b else forall i :: 0 <= i < |blocks| ==> blocks[i].block != b
  {
    var id := BlockId(rows, h.BlockAddr(b));
    if id >= 0 {
      h.BlockAddrInjective(blocks[id].block, b);
    }
  }

  lemma BlockIdIn(h: Hasher, t: Tables, c: Contents, b: Block)
    requires h.CollisionFree() && Rep(h, t, c)
    ensures |t.blocks| == |c.blocks|
    ensures
      var id := BlockId(t.blocks, h.BlockAddr(b));
      if id >= 0 then c.blocks[id].block == b else forall i :: 0 <= i < |c.blocks| ==> c.blocks[i].block != b
  {
    BlockIdOf(h, t.blocks, c.blocks, b);
  }

  lemma SetIdIn(h: Hasher, t: Tables, c: Contents, s: SolutionSet)
    requires h.CollisionFree() && Rep(h, t, c)
    ensures |t.sets| == |c.sets|
    ensures forall i, j :: 0 <= i < j < |c.sets| ==> c.sets[i].content != c.sets[j].content
    ensures
      var id := SetId(t.sets, h.ofSet(s));
      if id >= 0 then c.sets[id].content == s else forall i :: 0 <= i < |c.sets| ==> c.sets[i].content != s
  {
    SetIdOf(h, t.sets, c.sets, s);
  }

  lemma SetIdOf(h: Hasher, rows: seq<Addr>, sets: seq<SetEntry>, s: SolutionSet)
    requires h.CollisionFree() && RepSets(h, rows, sets)
    ensures
      var id := SetId(rows, h.ofSet(s));
      if id >= 0 then sets[id].content == s else forall i :: 0 <= i < |sets| ==> sets[i].content != s
  {
  }

  /** A solution's row exists exactly when it is among those stored so far, and it is unique. */
  lemma SolutionIdOf(rows: seq<SolutionRow>, sets: seq<SetEntry>, j: nat, i: nat)
    requires RepSolutions(rows, sets) && j < |sets| && i < |sets[j].content.solutions|
    ensures SolutionId(rows, j, i) >= 0 <==> i < sets[j].have
    ensures forall r :: 0 <= r < |rows| && rows[r].sid == j && rows[r].index == i ==> r == SolutionId(rows, j, i)
    ensures SolutionId(rows, j, i) >= 0 ==> rows[SolutionId(rows, j, i)] == SolutionRowOf(j, i, sets[j].content.solutions[i])
  {
    assert SolutionsMatch(rows, j, sets[j]);
    var id := SolutionId(rows, j, i);
    if i < sets[j].have {
      var row := SolutionRows(j, sets[j].content.solutions[..sets[j].have])[i];
      assert row in SolutionsOf(rows, j);
      WhereMember(rows, (r: SolutionRow) => r.sid == j, row);
      var r :| 0 <= r < |rows| && rows[r] == row;
      assert id == r;
    }
  }

  // ---------------------------------------------------------------- each insert keeps the representation

  lemma KeepsBlockRow(h: Hasher, t: Tables, c: Contents, b: Block)
    requires h.CollisionFree() && Rep(h, t, c) && BlockId(t.blocks, h.BlockAddr(b)) < 0
    ensures
      var blocks := PutBlockRow(t.blocks, h.BlockAddr(b), b.header);
      && Rep(h, t.(blocks := blocks), c.(blocks := c.blocks + [BlockEntry(b, 0)]))
      && BlockId(blocks, h.BlockAddr(b)) == |c.blocks|
  {
    BlockIdOf(h, t.blocks, c.blocks, b);
    var blocks := c.blocks + [BlockEntry(b, 0)];
    WhereNone(t.links, (r: LinkRow) => r.block == |c.blocks|);
    forall i | 0 <= i < |blocks| ensures LinksMatch(LinksOf(t.links, i), c.sets, i, blocks[i]) {
      if i < |c.blocks| {
        assert LinksMatch(LinksOf(t.links, i), c.sets, i, c.blocks[i]);
      }
    }
  }

  lemma KeepsSetRow(h: Hasher, t: Tables, c: Contents, s: SolutionSet)
    requires h.CollisionFree() && Rep(h, t, c) && SetId(t.sets, h.ofSet(s)) < 0
    ensures
      var sets := PutSetRow(t.sets, h.ofSet(s));
      && Rep(h, t.(sets := sets), c.(sets := c.sets + [SetEntry(s, 0, seq(|s.solutions|, _ => 0))]))
      && SetId(sets, h.ofSet(s)) == |c.sets|
  {
    SetIdOf(h, t.sets, c.sets, s);
    var sets := c.sets + [SetEntry(s, 0, seq(|s.solutions|, _ => 0))];
    LinksFrame(t.links, c.blocks, c.sets, sets);
    AppendSetEntry(t.solutions, c.sets, SetEntry(s, 0, seq(|s.solutions|, _ => 0)));
    MutationsFrame(t.mutations, t.solutions, c.sets, sets);
    DataFrame(t.data, t.solutions, c.sets, sets);
  }

  lemma AppendSetEntry(rows: seq<SolutionRow>, sets: seq<SetEntry>, e: SetEntry)
    requires RepSolutions(rows, sets) && GoodEntry(e) && e.have == 0
    ensures RepSolutions(rows, sets + [e])
    ensures forall r :: 0 <= r < |rows| ==>
      RowInEntry(rows[r], sets) && RowInEntry(rows[r], sets + [e]) && (sets + [e])[rows[r].sid] == sets[rows[r].sid]
  {
    forall r | 0 <= r < |rows| ensures RowInEntry(rows[r], sets + [e]) {
      assert RowInEntry(rows[r], sets);
    }
    WhereNone(rows, (r: SolutionRow) => r.sid == |sets|);
    forall j | 0 <= j < |sets + [e]| ensures GoodEntry((sets + [e])[j]) && SolutionsMatch(rows, j, (sets + [e])[j]) {
      if j < |sets| {
        assert SolutionsMatch(rows, j, sets[j]);
      }
    }
  }

  lemma KeepsLink(h: Hasher, t: Tables, c: Contents, i: nat, q: nat, sid: nat)
    requires Rep(h, t, c) && i < |c.blocks| && sid < |c.sets|
    requires c.blocks[i].linked == q < |c.blocks[i].block.sets| && c.sets[sid].content == c.blocks[i].block.sets[q]
    ensures
      Rep(h, t.(links := PutLinkRow(t.links, LinkRow(i, sid, q))), c.(blocks := c.blocks[i := c.blocks[i].(linked := q + 1)]))
  {
    var row := LinkRow(i, sid, q);
    var blocks := c.blocks[i := c.blocks[i].(linked := q + 1)];
    assert LinksMatch(LinksOf(t.links, i), c.sets, i, c.blocks[i]);
    forall k | 0 <= k < q ensures LinksOf(t.links, i)[k].index != q {
      assert LinkMatches(LinksOf(t.links, i)[k], c.sets, i, k, c.blocks[i].block.sets[k]);
    }
    WhereMember(t.links, (r: LinkRow) => r.block == i, row);
    forall m | 0 <= m < |blocks| ensures LinksMatch(LinksOf(t.links + [row], m), c.sets, m, blocks[m]) {
      assert LinksMatch(LinksOf(t.links, m), c.sets, m, c.blocks[m]);
      assert LinksOf(t.links + [row], m) == LinksOf(t.links, m) + if m == i then [row] else [] by {
        assert (t.links + [row])[..|t.links|] == t.links;
      }
      if m == i {
        forall k | 0 <= k < q + 1 ensures LinkMatches(LinksOf(t.links + [row], m)[k], c.sets, m, k, blocks[m].block.sets[k]) {
          if k < q {
            assert LinkMatches(LinksOf(t.links, m)[k], c.sets, m, k, c.blocks[m].block.sets[k]);
          }
        }
      }
    }
  }

  /** Linking a set that is already linked changes nothing. */
  lemma LinkIgnored(h: Hasher, t: Tables, c: Contents, i: nat, q: nat, sid: nat)
    requires Rep(h, t, c) && i < |c.blocks| && sid < |c.sets|
    requires q < c.blocks[i].linked && q < |c.blocks[i].block.sets| && c.sets[sid].content == c.blocks[i].block.sets[q]
    ensures PutLinkRow(t.links, LinkRow(i, sid, q)) == t.links
  {
    var rows := LinksOf(t.links, i);
    assert LinksMatch(rows, c.sets, i, c.blocks[i]);
    assert LinkMatches(rows[q], c.sets, i, q, c.blocks[i].block.sets[q]);
    assert rows[q] == LinkRow(i, sid, q);
    WhereMember(t.links, (r: LinkRow) => r.block == i, rows[q]);
  }

  ghost function StoreRow(sets: seq<SetEntry>, j: nat, i: nat): seq<SetEntry>
    requires j < |sets|
  {
    sets[j := sets[j].(have := if i < sets[j].have then sets[j].have else i + 1)]
  }

  ghost function StoreCopy(sets: seq<SetEntry>, j: nat, i: nat): seq<SetEntry>
    requires j < |sets| && i < |sets[j].copies|
  {
    sets[j := sets[j].(copies := sets[j].copies[i := sets[j].copies[i] + 1])]
  }

  lemma EmptyRep(h: Hasher)
    ensures Rep(h, EMPTY, Contents([], [])) && Tallied([], multiset{})
  {
  }

  lemma KeepsFinalized(h: Hasher, t: Tables, c: Contents, id: nat)
    requires Rep(h, t, c) && id < |c.blocks|
    ensures Rep(h, t.(finalized := t.finalized[c.blocks[id].block.header.number := id]), c)
  {
    hide RepBlocks, RepSets, RepLinks, RepSolutions, RepMutations, RepData;
  }

  lemma KeepsFailedRow(h: Hasher, t: Tables, c: Contents, row: FailedRow)
    requires Rep(h, t, c) && row.block < |c.blocks| && row.sid < |c.sets|
    ensures Rep(h, t.(failed := t.failed + [row]), c)
  {
    hide RepBlocks, RepSets, RepLinks, RepSolutions, RepMutations, RepData;
  }

  lemma KeepsSolutionRow(h: Hasher, t: Tables, c: Contents, j: nat, i: nat)
    requires Rep(h, t, c) && j < |c.sets| && i < |c.sets[j].content.solutions| && i <= c.sets[j].have
    ensures
      var solutions := PutSolutionRow(t.solutions, SolutionRowOf(j, i, c.sets[j].content.solutions[i]));
      Rep(h, t.(solutions := solutions), c.(sets := StoreRow(c.sets, j, i)))
  {
    SolutionIdOf(t.solutions, c.sets, j, i);
    hide RepBlocks, RepSets, RepLinks, RepSolutions, RepMutations, RepData;
    if i == c.sets[j].have {
      GoodAfter(h, t, c, j);
      AppendSolution(t.solutions, c.sets, j);
      NewRowHasNoCopies(t.mutations, t.data, t.solutions, c.sets, j);
      EntryFrame(h, t, c, StoreRow(c.sets, j, i));
    } else {
      assert StoreRow(c.sets, j, i) == c.sets;
    }
  }

  lemma GoodAfter(h: Hasher, t: Tables, c: Contents, j: nat)
    requires RepSets(h, t.sets, c.sets) && j < |c.sets| && c.sets[j].have < |c.sets[j].content.solutions|
    ensures
      var more := StoreRow(c.sets, j, c.sets[j].have);
      |more| == |c.sets| && forall k :: 0 <= k < |more| ==> more[k].content == c.sets[k].content && GoodEntry(more[k])
  {
  }

  /** The block, set and link tables do not see how much of a set is stored. */
  lemma EntryFrame(h: Hasher, t: Tables, c: Contents, sets: seq<SetEntry>)
    requires RepBlocks(h, t.blocks, c.blocks) && RepSets(h, t.sets, c.sets)
    requires RepLinks(t.links, c.blocks, c.sets) && RepPointers(t, c.blocks, c.sets)
    requires |sets| == |c.sets| && forall k :: 0 <= k < |sets| ==> sets[k].content == c.sets[k].content && GoodEntry(sets[k])
    ensures RepSets(h, t.sets, sets) && RepLinks(t.links, c.blocks, sets) && RepPointers(t, c.blocks, sets)
  {
    LinksFrame(t.links, c.blocks, c.sets, sets);
  }

  lemma NewRowHasNoCopies(mutations: seq<MutationRow>, data: seq<DataRow>, rows: seq<SolutionRow>, sets: seq<SetEntry>, j: nat)
    requires RepSolutions(rows, sets) && RepMutations(mutations, rows, sets) && RepData(data, rows, sets)
    requires j < |sets| && sets[j].have < |sets[j].content.solutions|
    ensures
      var i := sets[j].have;
      var rows' := rows + [SolutionRowOf(j, i, sets[j].content.solutions[i])];
      RepMutations(mutations, rows', StoreRow(sets, j, i)) && RepData(data, rows', StoreRow(sets, j, i))
  {
    var i := sets[j].have;
    var rows', more := rows + [SolutionRowOf(j, i, sets[j].content.solutions[i])], StoreRow(sets, j, i);
    WhereNone(mutations, (m: MutationRow) => m.solution == |rows|);
    WhereNone(data, (m: DataRow) => m.solution == |rows|);
    forall r | 0 <= r < |rows'| && RowInEntry(rows'[r], more)
      ensures MutationsMatch(mutations, r, SolutionAt(rows'[r], more), CopiesAt(rows'[r], more))
      ensures DataMatch(data, r, SolutionAt(rows'[r], more), CopiesAt(rows'[r], more))
    {
      if r < |rows| {
        assert RowInEntry(rows[r], sets);
        assert SolutionAt(rows'[r], more) == SolutionAt(rows[r], sets);
        assert CopiesAt(rows'[r], more) == CopiesAt(rows[r], sets);
      } else {
        assert GoodEntry(sets[j]) && CopiesAt(rows'[r], more) == 0;
      }
    }
  }

  lemma AppendSolution(rows: seq<SolutionRow>, sets: seq<SetEntry>, j: nat)
    requires RepSolutions(rows, sets) && j < |sets| && sets[j].have < |sets[j].content.solutions|
    ensures
      var i := sets[j].have;
      RepSolutions(rows + [SolutionRowOf(j, i, sets[j].content.solutions[i])], StoreRow(sets, j, i))
  {
    var i := sets[j].have;
    var row := SolutionRowOf(j, i, sets[j].content.solutions[i]);
    var more, rows' := StoreRow(sets, j, i), rows + [row];
    forall k | 0 <= k < |more| ensures GoodEntry(more[k]) && SolutionsMatch(rows', k, more[k]) {
      assert SolutionsMatch(rows, k, sets[k]);
      assert rows'[..|rows|] == rows;
      if k == j {
        var solutions := sets[j].content.solutions;
        assert SolutionRows(j, solutions[..i + 1]) == SolutionRows(j, solutions[..i]) + [row];
      }
    }
    SolutionIdOf(rows, sets, j, i);
    forall r | 0 <= r < |rows| ensures RowInEntry(rows[r], more) {
      assert RowInEntry(rows[r], sets);
    }
  }

  lemma KeepsCopies(h: Hasher, t: Tables, c: Contents, j: nat, i: nat)
    requires Rep(h, t, c) && j < |c.sets| && i < c.sets[j].have <= |c.sets[j].content.solutions|
    ensures SolutionId(t.solutions, j, i) >= 0
    ensures
      var id, s := SolutionId(t.solutions, j, i), c.sets[j].content.solutions[i];
      var u := t.(mutations := t.mutations + MutationRows(id, s.mutations), data := t.data + DataRows(id, s.data));
      Rep(h, u, c.(sets := StoreCopy(c.sets, j, i)))
  {
    SolutionIdOf(t.solutions, c.sets, j, i);
    var id, s := SolutionId(t.solutions, j, i), c.sets[j].content.solutions[i];
    var sets := StoreCopy(c.sets, j, i);
    CopyKeepsSolutions(t.solutions, c.sets, j, i);
    EntryFrame(h, t, c, sets);
    forall r | 0 <= r < |t.solutions| && RowInEntry(t.solutions[r], sets)
      ensures MutationsMatch(
        t.mutations + MutationRows(id, s.mutations), r, SolutionAt(t.solutions[r], sets), CopiesAt(t.solutions[r], sets))
      ensures DataMatch(t.data + DataRows(id, s.data), r, SolutionAt(t.solutions[r], sets), CopiesAt(t.solutions[r], sets))
    {
      assert RowInEntry(t.solutions[r], c.sets);
      AppendMutations(t.mutations, r, id, SolutionAt(t.solutions[r], c.sets), CopiesAt(t.solutions[r], c.sets), s);
      AppendData(t.data, r, id, SolutionAt(t.solutions[r], c.sets), CopiesAt(t.solutions[r], c.sets), s);
    }
  }

  lemma CopyKeepsSolutions(rows: seq<SolutionRow>, sets: seq<SetEntry>, j: nat, i: nat)
    requires RepSolutions(rows, sets) && j < |sets| && i < sets[j].have <= |sets[j].content.solutions|
    ensures i < |sets[j].copies| && RepSolutions(rows, StoreCopy(sets, j, i))
    ensures forall r :: 0 <= r < |rows| ==>
      var more := StoreCopy(sets, j, i);
      && RowInEntry(rows[r], sets) && RowInEntry(rows[r], more)
      && SolutionAt(rows[r], more) == SolutionAt(rows[r], sets)
      && CopiesAt(rows[r], more) == CopiesAt(rows[r], sets) + if r == SolutionId(rows, j, i) then 1 else 0
  {
    assert GoodEntry(sets[j]);
    var more := StoreCopy(sets, j, i);
    forall k | 0 <= k < |more| ensures GoodEntry(more[k]) && SolutionsMatch(rows, k, more[k]) {
      assert SolutionsMatch(rows, k, sets[k]);
    }
    SolutionIdOf(rows, sets, j, i);
    forall r | 0 <= r < |rows| ensures RowInEntry(rows[r], more) {
      assert RowInEntry(rows[r], sets);
    }
  }

  lemma KeepsSolution(h: Hasher, t: Tables, c: Contents, j: nat, i: nat)
    requires Rep(h, t, c) && j < |c.sets| && i < |c.sets[j].content.solutions| && i <= c.sets[j].have
    ensures
      Rep(h, PutSolution(t, j, i, c.sets[j].content.solutions[i]), c.(sets := StoreCopy(StoreRow(c.sets, j, i), j, i)))
  {
    var s := c.sets[j].content.solutions[i];
    var u := t.(solutions := PutSolutionRow(t.solutions, SolutionRowOf(j, i, s)));
    var d := c.(sets := StoreRow(c.sets, j, i));
    KeepsSolutionRow(h, t, c, j, i);
    KeepsCopies(h, u, d, j, i);
  }

  lemma AppendMutations(mutations: seq<MutationRow>, r: nat, id: nat, here: Solution, copies: nat, s: Solution)
    requires MutationsMatch(mutations, r, here, copies) && (r == id ==> here == s)
    ensures MutationsMatch(mutations + MutationRows(id, s.mutations), r, here, if r == id then copies + 1 else copies)
  {
    var rows := MutationRows(id, s.mutations);
    WhereAppend(mutations, rows, (m: MutationRow) => m.solution == r);
    if r == id {
      WhereAll(rows, (m: MutationRow) => m.solution == r);
    } else {
      WhereNone(rows, (m: MutationRow) => m.solution == r);
    }
  }

  lemma AppendData(data: seq<DataRow>, r: nat, id: nat, here: Solution, copies: nat, s: Solution)
    requires DataMatch(data, r, here, copies) && (r == id ==> here == s)
    ensures DataMatch(data + DataRows(id, s.data), r, here, if r == id then copies + 1 else copies)
  {
    var rows := DataRows(id, s.data);
    WhereAppend(data, rows, (m: DataRow) => m.solution == r);
    if r == id {
      WhereAll(rows, (m: DataRow) => m.solution == r);
    } else {
      WhereNone(rows, (m: DataRow) => m.solution == r);
    }
  }

  lemma LinksFrame(links: seq<LinkRow>, blocks: seq<BlockEntry>, sets: seq<SetEntry>, more: seq<SetEntry>)
    requires RepLinks(links, blocks, sets)
    requires |sets| <= |more| && forall j :: 0 <= j < |sets| ==> more[j].content == sets[j].content
    ensures RepLinks(links, blocks, more)
  {
    forall i | 0 <= i < |blocks| ensures LinksMatch(LinksOf(links, i), more, i, blocks[i]) {
      var rows := LinksOf(links, i);
      assert LinksMatch(rows, sets, i, blocks[i]);
      forall q | 0 <= q < blocks[i].linked ensures LinkMatches(rows[q], more, i, q, blocks[i].block.sets[q]) {
        assert LinkMatches(rows[q], sets, i, q, blocks[i].block.sets[q]);
      }
    }
  }

  lemma MutationsFrame(mutations: seq<MutationRow>, solutions: seq<SolutionRow>, sets: seq<SetEntry>, more: seq<SetEntry>)
    requires RepMutations(mutations, solutions, sets)
    requires forall r :: 0 <= r < |solutions| ==>
      RowInEntry(solutions[r], sets) && RowInEntry(solutions[r], more) && more[solutions[r].sid] == sets[solutions[r].sid]
    ensures RepMutations(mutations, solutions, more)
  {
  }

  lemma DataFrame(data: seq<DataRow>, solutions: seq<SolutionRow>, sets: seq<SetEntry>, more: seq<SetEntry>)
    requires RepData(data, solutions, sets)
    requires forall r :: 0 <= r < |solutions| ==>
      RowInEntry(solutions[r], sets) && RowInEntry(solutions[r], more) && more[solutions[r].sid] == sets[solutions[r].sid]
    ensures RepData(data, solutions, more)
  {
  }

  // ---------------------------------------------------------------- between statements

  /** A set of which every solution has been stored `n` times. */
  ghost function Whole(s: SolutionSet, n: nat): SetEntry {
    Partial(s, n, 0).(have := |s.solutions|)
  }

  /** A set stored `n` times, of which the first `k` solutions have just been stored once more. */
  ghost function Partial(s: SolutionSet, n: nat, k: nat): SetEntry {
    SetEntry(s, if n == 0 then k else |s.solutions|, seq(|s.solutions|, i => if i < k then n + 1 else n))
  }

  lemma PartialStep(sets: seq<SetEntry>, j: nat, n: nat, k: nat)
    requires j < |sets| && k < |sets[j].content.solutions| && sets[j] == Partial(sets[j].content, n, k)
    ensures k < |StoreRow(sets, j, k)[j].copies|
    ensures StoreCopy(StoreRow(sets, j, k), j, k) == sets[j := Partial(sets[j].content, n, k + 1)]
  {
    var stored := StoreRow(sets, j, k)[j];
    assert stored.copies[k := stored.copies[k] + 1] == Partial(sets[j].content, n, k + 1).copies;
  }

  lemma PartialEnds(s: SolutionSet, n: nat)
    ensures n > 0 ==> Partial(s, n, 0) == Whole(s, n)
    ensures Partial(s, 0, 0) == SetEntry(s, 0, seq(|s.solutions|, _ => 0))
    ensures Partial(s, n, |s.solutions|) == Whole(s, n + 1)
    ensures Partial(s, n, 0).content == s
  {
  }

  lemma {:induction false} TallyStep(sets: seq<SetEntry>, log: multiset<SolutionSet>, s: SolutionSet, j: nat, before: seq<SetEntry>)
    requires j < |sets| && sets[j] == Whole(s, log[s] + 1)
    requires Tallied(before, log)
    requires before == if s in log then sets[j := Whole(s, log[s])] else sets[..j]
    requires s !in log ==> j == |sets| - 1
    requires forall i :: 0 <= i < |sets| && i != j ==> sets[i].content != s
    ensures Tallied(sets, log + multiset{s})
  {
    hide Whole;
    WholeContent(s, log[s] + 1);
    WholeContent(s, log[s]);
    forall i | 0 <= i < |sets|
      ensures sets[i].content in log + multiset{s} && sets[i] == Whole(sets[i].content, (log + multiset{s})[sets[i].content])
    {
      if i != j {
        assert sets[i] == before[i];
      }
    }
    EverySetStored(sets, log, s, j, before);
  }

  lemma {:induction false} EverySetStored(sets: seq<SetEntry>, log: multiset<SolutionSet>, s: SolutionSet, j: nat, before: seq<SetEntry>)
    requires j < |sets| && |before| <= |sets| && sets[j].content == s
    requires forall x :: x in log ==> exists i :: 0 <= i < |before| && before[i].content == x
    requires forall i :: 0 <= i < |before| ==> before[i].content == sets[i].content
    ensures forall x :: x in log + multiset{s} ==> exists i :: 0 <= i < |sets| && sets[i].content == x
  {
    forall x | x in log + multiset{s} ensures exists i :: 0 <= i < |sets| && sets[i].content == x {
      if x != s {
        var i :| 0 <= i < |before| && before[i].content == x;
        assert sets[i].content == x;
      }
    }
  }

  lemma WholeContent(s: SolutionSet, n: nat)
    ensures Whole(s, n).content == s
  {
  }

  /** The entries are exactly the sets in `log`, each stored as often as the log says. */
  ghost predicate Tallied(sets: seq<SetEntry>, log: multiset<SolutionSet>) {
    && (forall j :: 0 <= j < |sets| ==> sets[j].content in log && sets[j] == Whole(sets[j].content, log[sets[j].content]))
    && (forall s :: s in log ==> exists j :: 0 <= j < |sets| && sets[j].content == s)
  }

  ghost function Linked(blocks: seq<Block>): seq<BlockEntry> {
    seq(|blocks|, i requires 0 <= i < |blocks| => BlockEntry(blocks[i], |blocks[i].sets|))
  }

  lemma LinkedAppend(blocks: seq<Block>, b: Block)
    ensures Linked(blocks + [b]) == Linked(blocks) + [BlockEntry(b, |b.sets|)]
  {
  }
}
