/** The values every other module talks about: words, keys, solution sets, blocks and their
    content addresses.
 */
module Types {

  // `Word` is a signed 64-bit integer and gas an unsigned one.
  const WORD_MIN: int := -0x8000_0000_0000_0000
  const WORD_MAX: int := 0x7FFF_FFFF_FFFF_FFFF
  const GAS_MAX: int := 0xFFFF_FFFF_FFFF_FFFF

  type Word = w: int | WORD_MIN <= w <= WORD_MAX
  type Byte = b: int | 0 <= b < 256
  type Blob = seq<Byte>

  /** A content address. The width (32 bytes) matters only to the registry keys, which state it. */
  type Addr = seq<Byte>
  type Key = seq<Word>
  type Value = seq<Word>

  datatype Option<+T> = None | Some(value: T)
  datatype Result<+T, +E> = Ok(value: T) | Err(error: E)

  datatype PredicateAddress = PredicateAddress(contract: Addr, pred: Addr)
  datatype Mutation = Mutation(key: Key, value: Value)
  datatype Solution = Solution(solves: PredicateAddress, data: seq<Value>, mutations: seq<Mutation>)
  datatype SolutionSet = SolutionSet(solutions: seq<Solution>)
  datatype Timestamp = Timestamp(secs: nat, nanos: nat)
  datatype Header = Header(number: Word, timestamp: Timestamp)
  datatype Block = Block(header: Header, sets: seq<SolutionSet>)

  /** The hash behind `content_addr`: one function for a solution set, and one for a block's
      header together with the addresses of its sets.
   */
  datatype Hasher = Hasher(ofSet: SolutionSet -> Addr, ofBlock: (Header, seq<Addr>) -> Addr) {
    function SetAddrs(sets: seq<SolutionSet>): (addrs: seq<Addr>)
      ensures |addrs| == |sets|
      ensures forall i :: 0 <= i < |sets| ==> addrs[i] == ofSet(sets[i])
    {
      seq(|sets|, i requires 0 <= i < |sets| => ofSet(sets[i]))
    }

    function BlockAddr(b: Block): Addr {
      ofBlock(b.header, SetAddrs(b.sets))
    }

    ghost predicate CollisionFree() {
      && (forall s, t :: ofSet(s) == ofSet(t) ==> s == t)
      && (forall g, h, xs, ys :: ofBlock(g, xs) == ofBlock(h, ys) ==> g == h && xs == ys)
    }

    /** A block is identified by its address, although only the addresses of its sets are hashed. */
    lemma BlockAddrInjective(a: Block, b: Block)
      requires CollisionFree()
      requires BlockAddr(a) == BlockAddr(b)
      ensures a == b
    {
      assert SetAddrs(a.sets) == SetAddrs(b.sets);
      forall i | 0 <= i < |a.sets| ensures a.sets[i] == b.sets[i] {
        assert ofSet(a.sets[i]) == SetAddrs(a.sets)[i] == SetAddrs(b.sets)[i] == ofSet(b.sets[i]);
      }
    }
  }
}
