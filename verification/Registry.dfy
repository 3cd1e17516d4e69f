/** The contract and program registries: keys, registrations and how they are read back.

    Content addresses are 32 bytes wide where that matters. A short final chunk of bytes is padded with zeros on the
    right when it is made a word.
 */
module Registry {
  import opened Types
  import opened Words

  /** `word_from_bytes_slice` on a chunk of at most eight bytes. */
  function PaddedWord(chunk: seq<Byte>): Word
    requires |chunk| <= 8
  {
    WordFromBytes(chunk + seq(8 - |chunk|, _ => 0))
  }

  function PaddedWords(bytes: Blob): (words: seq<Word>)
    ensures |words| == (|bytes| + 7) / 8
  {
    if |bytes| == 0 then []
    else if |bytes| <= 8 then [PaddedWord(bytes)]
    else [PaddedWord(bytes[..8])] + PaddedWords(bytes[8..])
  }

  /** The bytes of the words are the bytes that went in, followed by padding. */
  lemma {:induction false} PaddedWordsKeepBytes(bytes: Blob)
    ensures |bytes| <= |BlobFromWords(PaddedWords(bytes))|
    ensures BlobFromWords(PaddedWords(bytes))[..|bytes|] == bytes
    ensures forall i :: |bytes| <= i < |BlobFromWords(PaddedWords(bytes))| ==> BlobFromWords(PaddedWords(bytes))[i] == 0
  {
    if 0 < |bytes| <= 8 {
      BytesRoundTrip(bytes + seq(8 - |bytes|, _ => 0));
      assert PaddedWords(bytes)[1..] == [];
    } else if |bytes| > 8 {
      var chunk, rest := bytes[..8], bytes[8..];
      PaddedWordsKeepBytes(rest);
      assert chunk + seq(0, _ => 0) == chunk;
      BytesRoundTrip(chunk);
      assert PaddedWords(bytes)[0] == WordFromBytes(chunk) && PaddedWords(bytes)[1..] == PaddedWords(rest);
      assert BlobFromWords(PaddedWords(bytes)) == chunk + BlobFromWords(PaddedWords(rest));
      assert bytes == chunk + rest;
    }
  }

  // ---------------------------------------------------------------- keys

  type Address = a: Addr | |a| == 32 witness seq(32, _ => 0)

  function ContractSaltKey(contract: Addr): Key {
    [0] + PaddedWords(contract) + [0]
  }

  function ContractPredicateKey(contract: Addr, pred: Addr): Key {
    [0] + PaddedWords(contract) + PaddedWords(pred)
  }

  function PredicateKey(pred: Addr): Key {
    [1] + PaddedWords(pred)
  }

  function ProgramKey(program: Addr): Key {
    [0] + PaddedWords(program)
  }

  lemma PaddedWordsInjective(a: Address, b: Address)
    ensures PaddedWords(a) == PaddedWords(b) ==> a == b
  {
    PaddedWordsKeepBytes(a);
    PaddedWordsKeepBytes(b);
  }

  /** Within the contract registry the three kinds of key are injective and never meet. */
  lemma ContractKeysDistinct(a: Address, b: Address, c: Address, d: Address)
    ensures ContractSaltKey(a) == ContractSaltKey(b) <==> a == b
    ensures ContractPredicateKey(a, c) == ContractPredicateKey(b, d) <==> a == b && c == d
    ensures PredicateKey(a) == PredicateKey(b) <==> a == b
    ensures ContractSaltKey(a) != ContractPredicateKey(b, d)
    ensures ContractSaltKey(a) != PredicateKey(b)
    ensures ContractPredicateKey(a, c) != PredicateKey(b)
  {
    PaddedWordsInjective(a, b);
    PaddedWordsInjective(c, d);
    assert ContractSaltKey(a)[1..5] == PaddedWords(a) && ContractSaltKey(b)[1..5] == PaddedWords(b);
    assert ContractPredicateKey(a, c)[1..5] == PaddedWords(a) && ContractPredicateKey(b, d)[1..5] == PaddedWords(b);
    assert ContractPredicateKey(a, c)[5..] == PaddedWords(c) && ContractPredicateKey(b, d)[5..] == PaddedWords(d);
    assert PredicateKey(a)[1..] == PaddedWords(a) && PredicateKey(b)[1..] == PaddedWords(b);
  }

  lemma ProgramKeysDistinct(a: Address, b: Address)
    ensures ProgramKey(a) == ProgramKey(b) <==> a == b
  {
    PaddedWordsInjective(a, b);
    assert ProgramKey(a)[1..] == PaddedWords(a) && ProgramKey(b)[1..] == PaddedWords(b);
  }

  /** The key formats, word for word: a prefix, then the addresses as four words each. */
  lemma KeyFormats(contract: Address, pred: Address)
    ensures
      var key := ContractSaltKey(contract);
      |key| == 6 && key[0] == 0 && BlobFromWords(key[1..5]) == contract && key[5] == 0
    ensures
      var key := ContractPredicateKey(contract, pred);
      |key| == 9 && key[0] == 0 && BlobFromWords(key[1..5]) == contract && BlobFromWords(key[5..]) == pred
    ensures
      var key := PredicateKey(pred);
      |key| == 5 && key[0] == 1 && BlobFromWords(key[1..]) == pred
    ensures
      var key := ProgramKey(pred);
      |key| == 5 && key[0] == 0 && BlobFromWords(key[1..]) == pred
  {
    WholeWords(contract);
    WholeWords(pred);
    assert ContractSaltKey(contract)[1..5] == PaddedWords(contract) == ContractPredicateKey(contract, pred)[1..5];
    assert ContractPredicateKey(contract, pred)[5..] == PaddedWords(pred);
    assert PredicateKey(pred)[1..] == PaddedWords(pred) == ProgramKey(pred)[1..];
  }

  /** Thirty-two bytes are four words without padding. */
  lemma WholeWords(bytes: Address)
    ensures |PaddedWords(bytes)| == 4 && BlobFromWords(PaddedWords(bytes)) == bytes
  {
    PaddedWordsKeepBytes(bytes);
  }

  // ---------------------------------------------------------------- registrations

  /** What is stored for a byte string: its length in bytes, then its padded words. */
  function Encode(bytes: Blob): Value
    requires |bytes| <= WORD_MAX
  {
    [|bytes|] + PaddedWords(bytes)
  }

  datatype DecodeError = MissingLenBytes | InvalidLenBytes

  /** Read a length-prefixed byte string; a length beyond the words gives what bytes there are. */
  function Decode(words: Value): Result<Blob, DecodeError> {
    if words == [] then Err(MissingLenBytes)
    else if words[0] < 0 then Err(InvalidLenBytes)
    else
      var bytes := BlobFromWords(words[1..]);
      Ok(if words[0] < |bytes| then bytes[..words[0]] else bytes)
  }

  /** A byte string and its stored form: the length, then as few words as hold the bytes, filled up with zeros. */
  ghost predicate IsEncoding(value: Value, bytes: Blob) {
    && value != [] && value[0] == |bytes| && |value| == 1 + (|bytes| + 7) / 8
    && var blob := BlobFromWords(value[1..]);
       && bytes <= blob
       && forall i :: |bytes| <= i < |blob| ==> blob[i] == 0
  }

  lemma EncodeIsEncoding(bytes: Blob)
    requires |bytes| <= WORD_MAX
    ensures IsEncoding(Encode(bytes), bytes)
  {
    PaddedWordsKeepBytes(bytes);
    assert Encode(bytes)[1..] == PaddedWords(bytes);
  }

  /** An entry is unreadable exactly when it is empty or begins with a negative length. Otherwise it stands for
      as many of its bytes as the length says, or for all of them if there are fewer.
   */
  lemma DecodeIsPrefix(value: Value, bytes: Blob)
    ensures Decode(value).Err? <==> value == [] || value[0] < 0
    ensures Decode(value) == Ok(bytes) <==>
      && value != [] && value[0] >= 0 && bytes <= BlobFromWords(value[1..])
      && |bytes| == if value[0] < 8 * (|value| - 1) then value[0] else 8 * (|value| - 1)
  {
    if value != [] && value[0] >= 0 {
      var blob := BlobFromWords(value[1..]);
      assert bytes <= blob <==> |bytes| <= |blob| && bytes == blob[..|bytes|];
      assert blob[..|blob|] == blob;
    }
  }

  /** Any byte string, of any length modulo eight, reads back as itself. */
  lemma DecodeInvertsEncode(bytes: Blob)
    requires |bytes| <= WORD_MAX
    ensures Decode(Encode(bytes)) == Ok(bytes)
  {
    PaddedWordsKeepBytes(bytes);
    var words := Encode(bytes);
    assert words[0] == |bytes| && words[1..] == PaddedWords(bytes);
    var blob := BlobFromWords(words[1..]);
    assert |blob| == |bytes| ==> blob == blob[..|bytes|];
  }

  /** `register_program_mutations`. */
  method RegisterProgramMutations(address: Address, program: Blob) returns (mutations: seq<Mutation>)
    requires |program| <= WORD_MAX
    ensures |mutations| == 1 && mutations[0] == Mutation(ProgramKey(address), Encode(program))
    ensures
      var key := mutations[0].key;
      |key| == 5 && key[0] == 0 && BlobFromWords(key[1..]) == address
    ensures IsEncoding(mutations[0].value, program) && Decode(mutations[0].value) == Ok(program)
  {
    KeyFormats(address, address);
    EncodeIsEncoding(program);
    DecodeInvertsEncode(program);
    mutations := [];
    mutations := mutations + [Mutation(ProgramKey(address), Encode(program))];
  }

  /** The two mutations that register a predicate: the mark at `[0, contract, predicate]` that it is the contract's,
      and its encoding at `[1, predicate]`.
   */
  ghost predicate Registers(mark: Mutation, entry: Mutation, contract: Address, pred: Address, bytes: Blob) {
    && |mark.key| == 9 && mark.key[0] == 0 && BlobFromWords(mark.key[1..5]) == contract
    && BlobFromWords(mark.key[5..]) == pred && mark.value == [1]
    && |entry.key| == 5 && entry.key[0] == 1 && BlobFromWords(entry.key[1..]) == pred
    && IsEncoding(entry.value, bytes) && Decode(entry.value) == Ok(bytes)
  }

  lemma PredicateRegisters(contract: Address, pred: Address, bytes: Blob)
    requires |bytes| <= WORD_MAX
    ensures Registers(
      Mutation(ContractPredicateKey(contract, pred), [1]), Mutation(PredicateKey(pred), Encode(bytes)), contract, pred, bytes)
  {
    KeyFormats(contract, pred);
    EncodeIsEncoding(bytes);
    DecodeInvertsEncode(bytes);
  }

  /** `register_contract_mutations`: the salt at `[0, contract, 0]`, then for each predicate a mark that it belongs
      to the contract and its encoding. Predicates are given as address and encoding.
   */
  method RegisterContractMutations(contract: Address, salt: Address, preds: seq<(Address, Blob)>) returns (mutations: seq<Mutation>)
    requires forall i :: 0 <= i < |preds| ==> |preds[i].1| <= WORD_MAX
    ensures |mutations| == 1 + 2 * |preds|
    ensures
      var (key, value) := (mutations[0].key, mutations[0].value);
      && |key| == 6 && key[0] == 0 && BlobFromWords(key[1..5]) == contract && key[5] == 0
      && |value| == 4 && BlobFromWords(value) == salt
    ensures forall i :: 0 <= i < |preds| ==>
      var (mark, entry) := (mutations[1 + 2 * i], mutations[2 + 2 * i]);
      && mark.key == ContractPredicateKey(contract, preds[i].0) && entry.key == PredicateKey(preds[i].0)
      && |mark.key| == 9 && mark.key[0] == 0 && BlobFromWords(mark.key[1..5]) == contract
      && BlobFromWords(mark.key[5..]) == preds[i].0 && mark.value == [1]
      && |entry.key| == 5 && entry.key[0] == 1 && BlobFromWords(entry.key[1..]) == preds[i].0
      && IsEncoding(entry.value, preds[i].1) && Decode(entry.value) == Ok(preds[i].1)
  {
    hide ContractPredicateKey, PredicateKey, Encode, IsEncoding, Decode;
    KeyFormats(contract, contract);
    WholeWords(salt);
    mutations := [Mutation(ContractSaltKey(contract), PaddedWords(salt))];
    for k := 0 to |preds|
      invariant |mutations| == 1 + 2 * k
      invariant mutations[0] == Mutation(ContractSaltKey(contract), PaddedWords(salt))
      invariant forall i :: 0 <= i < k ==>
        && mutations[1 + 2 * i].key == ContractPredicateKey(contract, preds[i].0)
        && mutations[2 + 2 * i].key == PredicateKey(preds[i].0)
        && Registers(mutations[1 + 2 * i], mutations[2 + 2 * i], contract, preds[i].0, preds[i].1)
    {
      PredicateRegisters(contract, preds[k].0, preds[k].1);
      mutations := mutations + [Mutation(ContractPredicateKey(contract, preds[k].0), [1])];
      mutations := mutations + [Mutation(PredicateKey(preds[k].0), Encode(preds[k].1))];
    }
  }
}
