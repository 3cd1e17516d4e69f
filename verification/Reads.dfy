/** The queries behind `get_solution_set`, `get_block` and `list_blocks`, and what they return.

    The ORDER BY of the mutation and predicate data queries stands after a semicolon, so it is not
    part of the statement; their rows are taken to come back in insertion order.
 */
module Reads {
  import opened Types
  import opened Rows
  import opened Tables
  import Words

  function SolutionsQuery(t: Tables, a: Addr): seq<SolutionRow> {
    OrderBy(SolutionsOf(t.solutions, SetId(t.sets, a)), (x: SolutionRow, y: SolutionRow) => x.index <= y.index)
  }

  predicate IsSolution(t: Tables, solution: nat, a: Addr, index: nat) {
    && solution < |t.solutions|
    && t.solutions[solution].sid == SetId(t.sets, a) && t.solutions[solution].index == index
  }

  function MutationsQuery(t: Tables, a: Addr, index: nat): seq<MutationRow> {
    Where(t.mutations, (m: MutationRow) => IsSolution(t, m.solution, a, index))
  }

  function DataQuery(t: Tables, a: Addr, index: nat): seq<DataRow> {
    Where(t.data, (m: DataRow) => IsSolution(t, m.solution, a, index))
  }

  function LinksQuery(t: Tables, block: int): seq<LinkRow> {
    OrderBy(LinksOf(t.links, block), (x: LinkRow, y: LinkRow) => x.index <= y.index)
  }

  function ReadMutation(row: MutationRow): Mutation {
    Mutation(Words.WordsFromBlob(row.key), Words.WordsFromBlob(row.value))
  }

  function ReadMutations(rows: seq<MutationRow>): seq<Mutation> {
    seq(|rows|, i requires 0 <= i < |rows| => ReadMutation(rows[i]))
  }

  function ReadData(rows: seq<DataRow>): seq<Value> {
    seq(|rows|, i requires 0 <= i < |rows| => Words.WordsFromBlob(rows[i].value))
  }

  /** The `i`-th solution of a set as it is put back together from its rows. */
  function ReadSolution(t: Tables, a: Addr, rows: seq<SolutionRow>, i: nat): Solution
    requires i < |rows|
  {
    Solution(PredicateAddress(rows[i].contract, rows[i].pred), ReadData(DataQuery(t, a, i)), ReadMutations(MutationsQuery(t, a, i)))
  }

  // ---------------------------------------------------------------- what a set reads back as

  /** A solution whose rows have been stored `n` times. */
  function CopiedSolution(s: Solution, n: nat): Solution {
    s.(mutations := Repeat(s.mutations, n), data := Repeat(s.data, n))
  }

  /** A set stored `n` times: every solution's mutations and data come back `n` times over. */
  function Copied(s: SolutionSet, n: nat): (r: SolutionSet)
    ensures |r.solutions| == |s.solutions|
  {
    SolutionSet(seq(|s.solutions|, i requires 0 <= i < |s.solutions| => CopiedSolution(s.solutions[i], n)))
  }

  /** A set reads back as itself exactly when it was stored once or has nothing to repeat. */
  lemma CopiedIsSame(s: SolutionSet, n: nat)
    ensures Copied(s, n) == s <==>
      n == 1 || forall i :: 0 <= i < |s.solutions| ==> s.solutions[i].mutations == [] && s.solutions[i].data == []
  {
    if n == 1 {
      forall i | 0 <= i < |s.solutions| ensures Copied(s, n).solutions[i] == s.solutions[i] {
        assert Repeat(s.solutions[i].mutations, 1) == s.solutions[i].mutations;
        assert Repeat(s.solutions[i].data, 1) == s.solutions[i].data;
      }
    } else {
      forall i | 0 <= i < |s.solutions|
        ensures Copied(s, n).solutions[i] == s.solutions[i] <==> s.solutions[i].mutations == [] && s.solutions[i].data == []
      {
        RepeatLonger(s.solutions[i].mutations, n);
        RepeatLonger(s.solutions[i].data, n);
      }
      assert Copied(s, n) == s <==> forall i :: 0 <= i < |s.solutions| ==> Copied(s, n).solutions[i] == s.solutions[i];
    }
  }

  lemma RepeatLonger<T>(xs: seq<T>, n: nat)
    requires n != 1
    ensures Repeat(xs, n) == xs <==> xs == []
  {
    if xs != [] {
      assert |Repeat(xs, n)| == n * |xs|;
      if n > 1 {
        assert n * |xs| == |xs| + (n - 1) * |xs|;
      }
    } else {
      assert |Repeat(xs, n)| == n * 0;
    }
  }

  lemma {:induction false} ReadMutationsBack(r: nat, ms: seq<Mutation>, n: nat)
    ensures ReadMutations(Repeat(MutationRows(r, ms), n)) == Repeat(ms, n)
  {
    if n > 0 {
      var once := MutationRows(r, ms);
      ReadMutationsBack(r, ms, n - 1);
      forall i | 0 <= i < |ms| ensures ReadMutation(once[i]) == ms[i] {
        Words.BlobRoundTrip(ms[i].key);
        Words.BlobRoundTrip(ms[i].value);
      }
      assert ReadMutations(Repeat(once, n - 1) + once) == ReadMutations(Repeat(once, n - 1)) + ReadMutations(once);
      assert ReadMutations(once) == ms;
    }
  }

  lemma {:induction false} ReadDataBack(r: nat, data: seq<Value>, n: nat)
    ensures ReadData(Repeat(DataRows(r, data), n)) == Repeat(data, n)
  {
    if n > 0 {
      var once := DataRows(r, data);
      ReadDataBack(r, data, n - 1);
      forall i | 0 <= i < |data| ensures ReadData(once)[i] == data[i] {
        Words.BlobRoundTrip(data[i]);
      }
      assert ReadData(Repeat(once, n - 1) + once) == ReadData(Repeat(once, n - 1)) + ReadData(once);
      assert ReadData(once) == data;
    }
  }

  // ---------------------------------------------------------------- the queries on a representation

  lemma SolutionsOfSet(h: Hasher, t: Tables, c: Contents, s: SolutionSet, j: nat)
    requires h.CollisionFree() && Rep(h, t, c)
    requires j < |c.sets| && c.sets[j].content == s && c.sets[j].have == |s.solutions|
    ensures SetId(t.sets, h.ofSet(s)) == j
    ensures SolutionsQuery(t, h.ofSet(s)) == SolutionRows(j, s.solutions)
  {
    SetIdIn(h, t, c, s);
    assert SolutionsMatch(t.solutions, j, c.sets[j]);
    assert s.solutions[..c.sets[j].have] == s.solutions;
    OrderBySorted(SolutionRows(j, s.solutions), (x: SolutionRow, y: SolutionRow) => x.index <= y.index);
  }

  lemma MutationsOfSolution(h: Hasher, t: Tables, c: Contents, s: SolutionSet, j: nat, i: nat)
    requires h.CollisionFree() && Rep(h, t, c)
    requires j < |c.sets| && c.sets[j].content == s && c.sets[j].have == |s.solutions| && i < |s.solutions|
    requires SetId(t.sets, h.ofSet(s)) == j
    ensures |c.sets[j].copies| == |s.solutions|
    ensures ReadMutations(MutationsQuery(t, h.ofSet(s), i)) == Repeat(s.solutions[i].mutations, c.sets[j].copies[i])
    ensures ReadData(DataQuery(t, h.ofSet(s), i)) == Repeat(s.solutions[i].data, c.sets[j].copies[i])
  {
    SolutionIdOf(t.solutions, c.sets, j, i);
    var r := SolutionId(t.solutions, j, i);
    assert RowInEntry(t.solutions[r], c.sets);
    WhereSame(t.mutations, (m: MutationRow) => IsSolution(t, m.solution, h.ofSet(s), i), (m: MutationRow) => m.solution == r);
    WhereSame(t.data, (m: DataRow) => IsSolution(t, m.solution, h.ofSet(s), i), (m: DataRow) => m.solution == r);
    assert MutationsMatch(t.mutations, r, s.solutions[i], c.sets[j].copies[i]);
    assert DataMatch(t.data, r, s.solutions[i], c.sets[j].copies[i]);
    ReadMutationsBack(r, s.solutions[i].mutations, c.sets[j].copies[i]);
    ReadDataBack(r, s.solutions[i].data, c.sets[j].copies[i]);
  }

  lemma LinksOfBlock(h: Hasher, t: Tables, c: Contents, i: nat)
    requires Rep(h, t, c) && i < |c.blocks| && c.blocks[i].linked == |c.blocks[i].block.sets|
    ensures
      var rows, sets := LinksQuery(t, i), c.blocks[i].block.sets;
      && |rows| == |sets|
      && forall q :: 0 <= q < |sets| ==>
           LinkMatches(rows[q], c.sets, i, q, sets[q]) && rows[q].sid < |t.sets| && t.sets[rows[q].sid] == h.ofSet(sets[q])
  {
    var rows, sets := LinksOf(t.links, i), c.blocks[i].block.sets;
    assert LinksMatch(rows, c.sets, i, c.blocks[i]);
    forall q | 0 <= q < |rows| ensures rows[q].index == q {
      assert LinkMatches(rows[q], c.sets, i, q, sets[q]);
    }
    OrderBySorted(rows, (x: LinkRow, y: LinkRow) => x.index <= y.index);
  }
}
