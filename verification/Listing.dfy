/** The row order of `list_blocks`: sorting the joined rows sorts whole blocks.

    The grouping loop only looks at the address of the previous row, so it is right only if the rows
    of one block come together and in order. That is what `SortedRowsAreBlocks` says.
 */
module Listing {
  import opened Types
  import opened Rows
  import opened Tables

  /** A row of the LEFT JOIN; a block without sets has one row whose set address is NULL. */
  datatype ListRow = ListRow(address: Addr, header: Header, index: nat, content: Option<Addr>)

  /** How SQLite compares two blobs: byte by byte, a proper prefix first. */
  predicate AddrLe(a: Addr, b: Addr) {
    a == [] || (b != [] && (a[0] < b[0] || (a[0] == b[0] && AddrLe(a[1..], b[1..]))))
  }

  predicate RowLe(x: ListRow, y: ListRow) {
    || x.header.number < y.header.number
    || (x.header.number == y.header.number
        && if x.address == y.address then x.index <= y.index else AddrLe(x.address, y.address))
  }

  predicate BlockLe(h: Hasher, x: Block, y: Block) {
    || x.header.number < y.header.number
    || (x.header.number == y.header.number && AddrLe(h.BlockAddr(x), h.BlockAddr(y)))
  }

  /** The two comparisons, as the ORDER BY takes them. */
  function RowOrder(): (ListRow, ListRow) -> bool {
    (x, y) => RowLe(x, y)
  }

  function BlockOrder(h: Hasher): (Block, Block) -> bool {
    (x, y) => BlockLe(h, x, y)
  }

  predicate InRange(b: Block, lo: int, hi: int) {
    lo <= b.header.number < hi
  }

  function Within(lo: int, hi: int): Block -> bool {
    b => InRange(b, lo, hi)
  }

  // ---------------------------------------------------------------- the statement

  function RowsAt(t: Tables, i: nat): seq<ListRow>
    requires i < |t.blocks|
  {
    var links := LinksOf(t.links, i);
    if links == [] then [ListRow(t.blocks[i].address, t.blocks[i].header, 0, None)]
    else
      seq(|links|, q requires 0 <= q < |links| =>
        ListRow(t.blocks[i].address, t.blocks[i].header, links[q].index,
                if links[q].sid < |t.sets| then Some(t.sets[links[q].sid]) else None))
  }

  function JoinRows(t: Tables, lo: int, hi: int, k: nat): seq<ListRow>
    requires k <= |t.blocks|
  {
    if k == 0 then []
    else
      var number := t.blocks[k - 1].header.number;
      JoinRows(t, lo, hi, k - 1) + if lo <= number < hi then RowsAt(t, k - 1) else []
  }

  function ListQuery(t: Tables, lo: int, hi: int): seq<ListRow> {
    OrderBy(JoinRows(t, lo, hi, |t.blocks|), RowOrder())
  }

  // ---------------------------------------------------------------- what it returns

  function BlockRows(h: Hasher, b: Block): (rows: seq<ListRow>)
    ensures |rows| > 0
  {
    if b.sets == [] then [ListRow(h.BlockAddr(b), b.header, 0, None)]
    else
      seq(|b.sets|, q requires 0 <= q < |b.sets| => ListRow(h.BlockAddr(b), b.header, q, Some(h.ofSet(b.sets[q]))))
  }

  function Flatten(h: Hasher, blocks: seq<Block>): seq<ListRow> {
    if blocks == [] then [] else Flatten(h, blocks[..|blocks| - 1]) + BlockRows(h, blocks[|blocks| - 1])
  }

  /** The stored blocks numbered within the range, by number and then by address. */
  function Listed(h: Hasher, blocks: seq<Block>, lo: int, hi: int): seq<Block> {
    OrderBy(Where(blocks, Within(lo, hi)), BlockOrder(h))
  }

  lemma {:induction false} AddrLeTotal(a: Addr, b: Addr)
    ensures AddrLe(a, b) || AddrLe(b, a)
    ensures AddrLe(a, b) && AddrLe(b, a) ==> a == b
  {
    if a != [] && b != [] {
      AddrLeTotal(a[1..], b[1..]);
      assert a == [a[0]] + a[1..] && b == [b[0]] + b[1..];
    }
  }

  lemma {:induction false} AddrLeTransitive(a: Addr, b: Addr, c: Addr)
    requires AddrLe(a, b) && AddrLe(b, c)
    ensures AddrLe(a, c)
  {
    if a != [] && b != [] && c != [] && a[0] == b[0] == c[0] {
      AddrLeTransitive(a[1..], b[1..], c[1..]);
    }
  }

  /** An address comes no later than another exactly if it is a prefix of it, or has the smaller byte where they
      first differ.
   */
  lemma {:induction false} AddrLeIs(a: Addr, b: Addr)
    ensures AddrLe(a, b) <==> a <= b || exists k :: 0 <= k < |a| && k < |b| && a[..k] == b[..k] && a[k] < b[k]
  {
    if a != [] && b != [] {
      AddrLeIs(a[1..], b[1..]);
      assert a == [a[0]] + a[1..] && b == [b[0]] + b[1..];
      if a[0] == b[0] {
        if k :| 0 <= k < |a[1..]| && k < |b[1..]| && a[1..][..k] == b[1..][..k] && a[1..][k] < b[1..][k] {
          assert a[..k + 1] == [a[0]] + a[1..][..k] && b[..k + 1] == [b[0]] + b[1..][..k];
          assert a[k + 1] < b[k + 1];
        }
        if k :| 0 <= k < |a| && k < |b| && a[..k] == b[..k] && a[k] < b[k] {
          assert k > 0 && a[1..][..k - 1] == a[..k][1..] && b[1..][..k - 1] == b[..k][1..];
          assert a[1..][k - 1] < b[1..][k - 1];
        }
      } else if a[0] < b[0] {
        assert a[..0] == b[..0];
      } else {
        forall k | 0 < k < |a| && k < |b| ensures a[..k] != b[..k] {
          assert a[..k][0] != b[..k][0];
        }
      }
    }
  }

  lemma BlockLeTotal(h: Hasher)
    ensures forall a, b :: BlockLe(h, a, b) || BlockLe(h, b, a)
    ensures forall a, b, c :: BlockLe(h, a, b) && BlockLe(h, b, c) ==> BlockLe(h, a, c)
  {
    forall a, b ensures BlockLe(h, a, b) || BlockLe(h, b, a) {
      AddrLeTotal(h.BlockAddr(a), h.BlockAddr(b));
    }
    forall a, b, c | BlockLe(h, a, b) && BlockLe(h, b, c) ensures BlockLe(h, a, c) {
      if a.header.number == b.header.number == c.header.number {
        AddrLeTransitive(h.BlockAddr(a), h.BlockAddr(b), h.BlockAddr(c));
      }
    }
  }

  /** Listing returns every block in range exactly once, in order of number and then address. */
  lemma ListedIsOrdered(h: Hasher, blocks: seq<Block>, lo: int, hi: int)
    ensures multiset(Listed(h, blocks, lo, hi)) == multiset(Where(blocks, Within(lo, hi)))
    ensures
      var listed := Listed(h, blocks, lo, hi);
      forall i, j :: 0 <= i < j < |listed| ==> BlockLe(h, listed[i], listed[j])
    ensures forall b :: b in Listed(h, blocks, lo, hi) <==> b in blocks && InRange(b, lo, hi)
  {
    var rows := Where(blocks, Within(lo, hi));
    BlockLeTotal(h);
    OrderBySorts(rows, BlockOrder(h));
    forall b ensures b in Listed(h, blocks, lo, hi) <==> b in blocks && InRange(b, lo, hi) {
      WhereMember(blocks, Within(lo, hi), b);
      assert b in Listed(h, blocks, lo, hi) <==> b in multiset(Listed(h, blocks, lo, hi));
      assert b in rows <==> b in multiset(rows);
    }
  }

  /** As blobs compare: the one is a proper prefix of the other, or has the smaller byte where they first differ. */
  ghost predicate Precedes(a: Addr, c: Addr) {
    a < c || exists k :: 0 <= k < |a| && k < |c| && a[..k] == c[..k] && a[k] < c[k]
  }

  lemma PrecedesIs(a: Addr, c: Addr)
    ensures Precedes(a, c) <==> AddrLe(a, c) && a != c
  {
    AddrLeIs(a, c);
  }

  /** The listed blocks, spelled out: just the stored blocks in range; numbers never fall; and of two blocks with one
      number the first has an address that is a prefix of the other's, or the smaller byte where they first differ.
   */
  lemma ListedInOrder(h: Hasher, blocks: seq<Block>, lo: int, hi: int)
    ensures forall b :: b in Listed(h, blocks, lo, hi) <==> b in blocks && lo <= b.header.number < hi
    ensures
      var listed := Listed(h, blocks, lo, hi);
      forall i, j :: 0 <= i < j < |listed| ==>
        && listed[i].header.number <= listed[j].header.number
        && (listed[i].header.number == listed[j].header.number ==>
              var (a, c) := (h.BlockAddr(listed[i]), h.BlockAddr(listed[j]));
              a <= c || exists k :: 0 <= k < |a| && k < |c| && a[..k] == c[..k] && a[k] < c[k])
  {
    var listed := Listed(h, blocks, lo, hi);
    ListedIsOrdered(h, blocks, lo, hi);
    hide Listed, AddrLe;
    forall i, j | 0 <= i < j < |listed| ensures BlockLe(h, listed[i], listed[j]) {
      AddrLeIs(h.BlockAddr(listed[i]), h.BlockAddr(listed[j]));
    }
    forall i, j | 0 <= i < j < |listed| && listed[i].header.number == listed[j].header.number
      ensures
        var (a, c) := (h.BlockAddr(listed[i]), h.BlockAddr(listed[j]));
        a <= c || exists k :: 0 <= k < |a| && k < |c| && a[..k] == c[..k] && a[k] < c[k]
    {
      AddrLeIs(h.BlockAddr(listed[i]), h.BlockAddr(listed[j]));
    }
  }

  // ---------------------------------------------------------------- sorting rows sorts blocks

  /** Insertion stops behind the last row that is not greater. */
  lemma {:induction false} InsertBetween<T>(x: T, a: seq<T>, b: seq<T>, le: (T, T) -> bool)
    requires a != [] ==> le(a[|a| - 1], x)
    requires forall i :: 0 <= i < |b| ==> !le(b[i], x)
    ensures Insert(x, a + b, le) == a + [x] + b
  {
    if b == [] {
      assert a + b == a;
    } else {
      var k := |b| - 1;
      InsertBetween(x, a, b[..k], le);
      assert (a + b)[..|a + b| - 1] == a + b[..k];
      assert a + [x] + b == a + [x] + b[..k] + [b[k]];
    }
  }

  ghost predicate AllRows(h: Hasher, rows: seq<ListRow>, blocks: seq<Block>) {
    forall r :: r in rows ==> exists b :: b in blocks && r in BlockRows(h, b)
  }

  lemma {:induction false} FlattenRows(h: Hasher, blocks: seq<Block>)
    ensures AllRows(h, Flatten(h, blocks), blocks)
    ensures blocks != [] ==> |Flatten(h, blocks)| > 0 && Flatten(h, blocks)[|Flatten(h, blocks)| - 1] in BlockRows(h, blocks[|blocks| - 1])
  {
    if blocks != [] {
      var k := |blocks| - 1;
      FlattenRows(h, blocks[..k]);
      forall r | r in Flatten(h, blocks) ensures exists b :: b in blocks && r in BlockRows(h, b) {
        if r in Flatten(h, blocks[..k]) {
          var b :| b in blocks[..k] && r in BlockRows(h, b);
          assert b in blocks;
        } else {
          assert blocks[k] in blocks;
        }
      }
      var rows := BlockRows(h, blocks[k]);
      assert Flatten(h, blocks)[|Flatten(h, blocks)| - 1] == rows[|rows| - 1];
    }
  }

  lemma {:induction false} FlattenAppend(h: Hasher, a: seq<Block>, b: seq<Block>)
    ensures Flatten(h, a + b) == Flatten(h, a) + Flatten(h, b)
  {
    hide BlockRows;
    if b == [] {
      assert a + b == a;
    } else {
      var k := |b| - 1;
      FlattenAppend(h, a, b[..k]);
      assert (a + b)[..|a + b| - 1] == a + b[..k] && (a + b)[|a + b| - 1] == b[k];
      assert Flatten(h, a + b) == Flatten(h, a + b[..k]) + BlockRows(h, b[k]);
    }
  }

  /** Rows of different blocks compare as their blocks do. */
  lemma RowsCompare(h: Hasher, x: Block, y: Block, r: ListRow, s: ListRow)
    requires h.CollisionFree() && x != y && r in BlockRows(h, x) && s in BlockRows(h, y)
    ensures RowLe(r, s) <==> BlockLe(h, x, y)
  {
    if h.BlockAddr(x) == h.BlockAddr(y) {
      h.BlockAddrInjective(x, y);
    }
  }

  /** A block's row goes behind the rows before it, whether of its own or of an earlier block. */
  lemma InsertRow(h: Hasher, b: Block, before: seq<Block>, after: seq<Block>, k: nat)
    requires h.CollisionFree() && b !in before && b !in after && k < |BlockRows(h, b)|
    requires before != [] ==> BlockLe(h, before[|before| - 1], b)
    requires forall i :: 0 <= i < |after| ==> !BlockLe(h, after[i], b)
    ensures
      var rows := BlockRows(h, b);
      Insert(rows[k], Flatten(h, before) + rows[..k] + Flatten(h, after), RowOrder())
      == Flatten(h, before) + rows[..k + 1] + Flatten(h, after)
  {
    LastRowBefore(h, b, before, k);
    RowsAfter(h, b, after, k);
    InsertInPlace(Flatten(h, before), BlockRows(h, b), Flatten(h, after), k, RowOrder());
  }

  lemma InsertInPlace<T>(a: seq<T>, rows: seq<T>, c: seq<T>, k: nat, le: (T, T) -> bool)
    requires k < |rows|
    requires a + rows[..k] != [] ==> le((a + rows[..k])[|a + rows[..k]| - 1], rows[k])
    requires forall i :: 0 <= i < |c| ==> !le(c[i], rows[k])
    ensures Insert(rows[k], a + rows[..k] + c, le) == a + rows[..k + 1] + c
  {
    InsertBetween(rows[k], a + rows[..k], c, le);
    assert a + rows[..k] + [rows[k]] == a + rows[..k + 1];
  }

  lemma LastRowBefore(h: Hasher, b: Block, before: seq<Block>, k: nat)
    requires h.CollisionFree() && b !in before && k < |BlockRows(h, b)|
    requires before != [] ==> BlockLe(h, before[|before| - 1], b)
    ensures
      var a := Flatten(h, before) + BlockRows(h, b)[..k];
      a != [] ==> RowOrder()(a[|a| - 1], BlockRows(h, b)[k])
  {
    if k == 0 && before != [] {
      var a := Flatten(h, before);
      FlattenRows(h, before);
      assert a + BlockRows(h, b)[..0] == a;
      RowsCompare(h, before[|before| - 1], b, a[|a| - 1], BlockRows(h, b)[k]);
    }
  }

  lemma RowsAfter(h: Hasher, b: Block, after: seq<Block>, k: nat)
    requires h.CollisionFree() && b !in after && k < |BlockRows(h, b)|
    requires forall i :: 0 <= i < |after| ==> !BlockLe(h, after[i], b)
    ensures forall i :: 0 <= i < |Flatten(h, after)| ==> !RowOrder()(Flatten(h, after)[i], BlockRows(h, b)[k])
  {
    var c := Flatten(h, after);
    FlattenRows(h, after);
    hide BlockRows, Flatten, RowLe, BlockLe;
    forall i | 0 <= i < |c| ensures !RowOrder()(c[i], BlockRows(h, b)[k]) {
      assert c[i] in c;
      var y :| y in after && c[i] in BlockRows(h, y);
      RowsCompare(h, y, b, c[i], BlockRows(h, b)[k]);
    }
  }

  /** Inserting the rows of one block, first to last, inserts the block. */
  lemma {:induction false} InsertRows(h: Hasher, b: Block, before: seq<Block>, after: seq<Block>, rest: seq<ListRow>, k: nat)
    requires h.CollisionFree() && b !in before && b !in after && k <= |BlockRows(h, b)|
    requires before != [] ==> BlockLe(h, before[|before| - 1], b)
    requires forall i :: 0 <= i < |after| ==> !BlockLe(h, after[i], b)
    requires OrderBy(rest, RowOrder()) == Flatten(h, before) + Flatten(h, after)
    ensures
      OrderBy(rest + BlockRows(h, b)[..k], RowOrder())
      == Flatten(h, before) + BlockRows(h, b)[..k] + Flatten(h, after)
  {
    hide Flatten, BlockRows, RowLe, BlockLe, Insert;
    var rows := BlockRows(h, b);
    if k == 0 {
      assert rest + rows[..0] == rest;
      assert Flatten(h, before) + rows[..0] == Flatten(h, before);
    } else {
      var all := rest + rows[..k];
      assert all[..|all| - 1] == rest + rows[..k - 1] && all[|all| - 1] == rows[k - 1];
      InsertRows(h, b, before, after, rest, k - 1);
      InsertRow(h, b, before, after, k - 1);
    }
  }

  /** Where insertion puts a block. */
  lemma {:induction false} InsertSplits(h: Hasher, b: Block, blocks: seq<Block>) returns (k: nat)
    requires Sorted(blocks, BlockOrder(h))
    ensures k <= |blocks|
    ensures k > 0 ==> BlockLe(h, blocks[k - 1], b)
    ensures forall i :: k <= i < |blocks| ==> !BlockLe(h, blocks[i], b)
    ensures Insert(b, blocks, BlockOrder(h)) == blocks[..k] + [b] + blocks[k..]
  {
    var le := BlockOrder(h);
    k := |blocks|;
    while k > 0 && !le(blocks[k - 1], b)
      invariant k <= |blocks|
      invariant forall i :: k <= i < |blocks| ==> !BlockLe(h, blocks[i], b)
    {
      k := k - 1;
    }
    InsertBetween(b, blocks[..k], blocks[k..], le);
    assert blocks[..k] + blocks[k..] == blocks;
  }

  /** Sorting the rows of distinct blocks gives the rows of the sorted blocks. */
  lemma {:induction false} SortedRowsAreBlocks(h: Hasher, blocks: seq<Block>)
    requires h.CollisionFree() && forall i, j :: 0 <= i < j < |blocks| ==> blocks[i] != blocks[j]
    ensures
      OrderBy(Flatten(h, blocks), RowOrder())
      == Flatten(h, OrderBy(blocks, BlockOrder(h)))
  {
    if blocks != [] {
      var n := |blocks| - 1;
      SortedRowsAreBlocks(h, blocks[..n]);
      SortedWithout(h, blocks[..n], blocks[n]);
      FlattenLast(h, blocks);
      InsertBlock(h, blocks[n], OrderBy(blocks[..n], BlockOrder(h)), Flatten(h, blocks[..n]));
    }
  }

  lemma SortedWithout(h: Hasher, blocks: seq<Block>, b: Block)
    requires b !in blocks
    ensures Sorted(OrderBy(blocks, BlockOrder(h)), BlockOrder(h)) && b !in OrderBy(blocks, BlockOrder(h))
  {
    BlockLeTotal(h);
    OrderBySorts(blocks, BlockOrder(h));
    assert b !in multiset(blocks);
  }

  lemma FlattenLast(h: Hasher, blocks: seq<Block>)
    requires blocks != []
    ensures Flatten(h, blocks) == Flatten(h, blocks[..|blocks| - 1]) + BlockRows(h, blocks[|blocks| - 1])
  {
  }

  lemma FlattenOne(h: Hasher, b: Block)
    ensures Flatten(h, [b]) == BlockRows(h, b)
  {
    assert Flatten(h, [b][..0]) == [];
  }

  /** The rows of a block are sorted among themselves and inserted one at a time. */
  lemma InsertBlock(h: Hasher, b: Block, sorted: seq<Block>, rest: seq<ListRow>)
    requires h.CollisionFree() && b !in sorted
    requires Sorted(sorted, BlockOrder(h))
    requires OrderBy(rest, RowOrder()) == Flatten(h, sorted)
    ensures
      OrderBy(rest + BlockRows(h, b), RowOrder())
      == Flatten(h, Insert(b, sorted, BlockOrder(h)))
  {
    hide BlockRows, RowLe, BlockLe, Insert, Flatten;
    var k := InsertSplits(h, b, sorted);
    var rows := BlockRows(h, b);
    assert sorted == sorted[..k] + sorted[k..];
    FlattenAppend(h, sorted[..k], sorted[k..]);
    InsertRows(h, b, sorted[..k], sorted[k..], rest, |rows|);
    assert rows[..|rows|] == rows;
    FlattenAppend(h, sorted[..k], [b]);
    FlattenAppend(h, sorted[..k] + [b], sorted[k..]);
    FlattenOne(h, b);
  }

  // ---------------------------------------------------------------- the statement on a representation

  lemma RowsAtBlock(h: Hasher, t: Tables, c: Contents, i: nat)
    requires Rep(h, t, c) && i < |c.blocks| == |t.blocks| && c.blocks[i].linked == |c.blocks[i].block.sets|
    ensures RowsAt(t, i) == BlockRows(h, c.blocks[i].block)
  {
    var links, b := LinksOf(t.links, i), c.blocks[i].block;
    assert LinksMatch(links, c.sets, i, c.blocks[i]);
    forall q | 0 <= q < |links|
      ensures links[q].index == q && links[q].sid < |t.sets| && t.sets[links[q].sid] == h.ofSet(b.sets[q])
    {
      assert LinkMatches(links[q], c.sets, i, q, b.sets[q]);
    }
  }

  lemma {:induction false} JoinIsFlatten(h: Hasher, t: Tables, blocks: seq<Block>, lo: int, hi: int, k: nat)
    requires k <= |t.blocks| == |blocks|
    requires forall i :: 0 <= i < k ==> RowsAt(t, i) == BlockRows(h, blocks[i]) && t.blocks[i].header == blocks[i].header
    ensures JoinRows(t, lo, hi, k) == Flatten(h, Where(blocks[..k], Within(lo, hi)))
  {
    hide RowsAt, BlockRows;
    if k > 0 {
      JoinIsFlatten(h, t, blocks, lo, hi, k - 1);
      assert blocks[..k][..k - 1] == blocks[..k - 1];
      FlattenAppend(h, Where(blocks[..k - 1], Within(lo, hi)), [blocks[k - 1]]);
      FlattenOne(h, blocks[k - 1]);
      var front := Where(blocks[..k - 1], Within(lo, hi));
      assert Where(blocks[..k], Within(lo, hi)) == if InRange(blocks[k - 1], lo, hi) then front + [blocks[k - 1]] else front;
    }
  }

  lemma {:induction false} WhereDistinct<T>(rows: seq<T>, p: T -> bool)
    requires forall i, j :: 0 <= i < j < |rows| ==> rows[i] != rows[j]
    ensures forall i, j :: 0 <= i < j < |Where(rows, p)| ==> Where(rows, p)[i] != Where(rows, p)[j]
  {
    if rows != [] {
      var k := |rows| - 1;
      WhereDistinct(rows[..k], p);
      WhereMember(rows[..k], p, rows[k]);
    }
  }

  /** The statement returns the rows of the listed blocks, one block after another. */
  lemma ListQueryIs(h: Hasher, t: Tables, c: Contents, blocks: seq<Block>, lo: int, hi: int)
    requires h.CollisionFree() && Rep(h, t, c) && c.blocks == Linked(blocks)
    ensures ListQuery(t, lo, hi) == Flatten(h, Listed(h, blocks, lo, hi))
  {
    forall i, j | 0 <= i < j < |blocks| ensures blocks[i] != blocks[j] {
      assert c.blocks[i].block == blocks[i] && c.blocks[j].block == blocks[j];
    }
    forall i | 0 <= i < |blocks| ensures RowsAt(t, i) == BlockRows(h, blocks[i]) {
      RowsAtBlock(h, t, c, i);
    }
    JoinIsFlatten(h, t, blocks, lo, hi, |blocks|);
    assert blocks[..|blocks|] == blocks;
    WhereDistinct(blocks, Within(lo, hi));
    SortedRowsAreBlocks(h, Where(blocks, Within(lo, hi)));
  }

  // ---------------------------------------------------------------- for the grouping loop

  lemma {:induction false} DistinctCount<T>(xs: seq<T>, x: T)
    requires forall i, j :: 0 <= i < j < |xs| ==> xs[i] != xs[j]
    ensures multiset(xs)[x] <= 1
  {
    if xs != [] {
      var k := |xs| - 1;
      DistinctCount(xs[..k], x);
      assert xs == xs[..k] + [xs[k]];
    }
  }

  lemma ListedDistinct(h: Hasher, blocks: seq<Block>, lo: int, hi: int, i: nat, j: nat)
    requires forall i, j :: 0 <= i < j < |blocks| ==> blocks[i] != blocks[j]
    requires i < j < |Listed(h, blocks, lo, hi)|
    ensures Listed(h, blocks, lo, hi)[i] != Listed(h, blocks, lo, hi)[j]
  {
    var rows, listed := Where(blocks, Within(lo, hi)), Listed(h, blocks, lo, hi);
    ListedIsOrdered(h, blocks, lo, hi);
    WhereDistinct(blocks, Within(lo, hi));
    DistinctCount(rows, listed[j]);
    assert listed == listed[..j] + listed[j..];
    assert listed[j] in listed[j..];
    assert listed[i] in listed[..j];
  }

  /** Row `q` of the `p`-th block stands behind all rows of the blocks before it. */
  lemma FlattenIndex(h: Hasher, blocks: seq<Block>, p: nat, q: nat)
    requires p < |blocks| && q < |BlockRows(h, blocks[p])|
    ensures |Flatten(h, blocks[..p + 1])| == |Flatten(h, blocks[..p])| + |BlockRows(h, blocks[p])|
    ensures
      var k := |Flatten(h, blocks[..p])| + q;
      k < |Flatten(h, blocks)| && Flatten(h, blocks)[k] == BlockRows(h, blocks[p])[q]
  {
    hide BlockRows;
    var before, after := blocks[..p], blocks[p + 1..];
    assert blocks == before + blocks[p..];
    assert blocks[p..] == [blocks[p]] + after;
    assert blocks[..p + 1] == before + [blocks[p]];
    FlattenAppend(h, before, [blocks[p]]);
    FlattenAppend(h, before, blocks[p..]);
    FlattenAppend(h, [blocks[p]], after);
    FlattenOne(h, blocks[p]);
  }

  /** Row number `k` is row `q` of block `p`, or the end. */
  ghost predicate AtRow(h: Hasher, blocks: seq<Block>, k: int, p: nat, q: nat) {
    && p <= |blocks| && k == |Flatten(h, blocks[..p])| + q
    && if p < |blocks| then q < |BlockRows(h, blocks[p])| else q == 0
  }

  lemma AtRowStart(h: Hasher, blocks: seq<Block>)
    ensures AtRow(h, blocks, 0, 0, 0)
  {
    assert Flatten(h, blocks[..0]) == [];
  }

  lemma AtRowEnd(h: Hasher, blocks: seq<Block>, k: int, p: nat, q: nat)
    requires AtRow(h, blocks, k, p, q)
    ensures p == |blocks| <==> k >= |Flatten(h, blocks)|
    ensures p == |blocks| ==> q == 0
    ensures p <= |blocks|
  {
    if p < |blocks| {
      FlattenIndex(h, blocks, p, q);
    } else {
      assert blocks[..p] == blocks;
    }
  }

  /** The row after it, and what row `k` is. */
  lemma {:induction false} AtRowStep(h: Hasher, blocks: seq<Block>, k: int, p: nat, q: nat)
    requires AtRow(h, blocks, k, p, q) && k < |Flatten(h, blocks)|
    ensures p < |blocks|
    ensures
      var (r, b) := (Flatten(h, blocks)[k], blocks[p]);
      && r.address == h.BlockAddr(b) && r.header == b.header
      && if b.sets == [] then r.content.None? else q < |b.sets| && r.content == Some(h.ofSet(b.sets[q]))
    ensures
      var n := if blocks[p].sets == [] then 1 else |blocks[p].sets|;
      if q + 1 == n then AtRow(h, blocks, k + 1, p + 1, 0) else AtRow(h, blocks, k + 1, p, q + 1)
  {
    AtRowEnd(h, blocks, k, p, q);
    FlattenIndex(h, blocks, p, q);
  }
}
