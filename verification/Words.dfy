/** Words as bytes, and keys as numbers.

    Keys and values are stored as blobs of big-endian two's-complement words, and a key range is
    walked by taking the successor of a key in place.
 */
module Words {
  import opened Types

  const BASE: int := 0x1_0000_0000_0000_0000

  // ---------------------------------------------------------------- words as eight bytes

  function Pow256(n: nat): (p: nat)
    ensures p > 0
  {
    if n == 0 then 1 else 256 * Pow256(n - 1)
  }

  function BigEndian(u: nat, n: nat): (bytes: seq<Byte>)
    ensures |bytes| == n
  {
    if n == 0 then [] else BigEndian(u / 256, n - 1) + [u % 256]
  }

  function FromBigEndian(bytes: seq<Byte>): (u: nat)
    ensures u < Pow256(|bytes|)
  {
    if bytes == [] then 0 else FromBigEndian(bytes[..|bytes| - 1]) * 256 + bytes[|bytes| - 1]
  }

  lemma {:induction false} BigEndianRoundTrip(u: nat, n: nat)
    requires u < Pow256(n)
    ensures FromBigEndian(BigEndian(u, n)) == u
  {
    if n > 0 {
      BigEndianRoundTrip(u / 256, n - 1);
      assert BigEndian(u, n)[..n - 1] == BigEndian(u / 256, n - 1);
    }
  }

  lemma {:induction false} FromBigEndianRoundTrip(bytes: seq<Byte>)
    ensures BigEndian(FromBigEndian(bytes), |bytes|) == bytes
  {
    if bytes != [] {
      FromBigEndianRoundTrip(bytes[..|bytes| - 1]);
    }
  }

  lemma EightBytes()
    ensures Pow256(8) == BASE
  {
    assert Pow256(4) == 0x1_0000_0000;
    assert Pow256(6) == 0x1_0000_0000_0000;
  }

  /** `i64::to_be_bytes`. */
  function BytesFromWord(w: Word): (bytes: seq<Byte>)
    ensures |bytes| == 8
  {
    BigEndian(if w < 0 then w + BASE else w, 8)
  }

  /** `i64::from_be_bytes`. */
  function WordFromBytes(bytes: seq<Byte>): Word
    requires |bytes| == 8
  {
    EightBytes();
    var u := FromBigEndian(bytes);
    if u > WORD_MAX then u - BASE else u
  }

  lemma WordRoundTrip(w: Word)
    ensures WordFromBytes(BytesFromWord(w)) == w
  {
    EightBytes();
    BigEndianRoundTrip(if w < 0 then w + BASE else w, 8);
  }

  lemma BytesRoundTrip(bytes: seq<Byte>)
    requires |bytes| == 8
    ensures BytesFromWord(WordFromBytes(bytes)) == bytes
  {
    EightBytes();
    FromBigEndianRoundTrip(bytes);
  }

  /** The most significant byte comes first, and a negative word is its two's complement. */
  lemma BytesOfWord(w: Word)
    ensures
      var b: seq<int> := BytesFromWord(w);
      (if w < 0 then w + 0x1_0000_0000_0000_0000 else w) ==
        b[0] * 0x100_0000_0000_0000 + b[1] * 0x1_0000_0000_0000 + b[2] * 0x100_0000_0000 + b[3] * 0x1_0000_0000
        + b[4] * 0x100_0000 + b[5] * 0x1_0000 + b[6] * 0x100 + b[7]
  {
    var b := BytesFromWord(w);
    EightBytes();
    BigEndianRoundTrip(if w < 0 then w + BASE else w, 8);
    forall n: nat | n < 8
      ensures FromBigEndian(b[..n + 1]) == FromBigEndian(b[..n]) * 256 + b[n]
    {
      assert b[..n + 1][..n] == b[..n];
    }
    assert b[..8] == b && FromBigEndian(b[..0]) == 0;
  }

  // ---------------------------------------------------------------- blobs

  function BlobFromWords(words: seq<Word>): (blob: Blob)
    ensures |blob| == 8 * |words|
  {
    if words == [] then [] else BytesFromWord(words[0]) + BlobFromWords(words[1..])
  }

  /** `chunks_exact(8)`: trailing bytes that do not fill a word are dropped. */
  function WordsFromBlob(blob: Blob): (words: seq<Word>)
    ensures |words| == |blob| / 8
  {
    if |blob| < 8 then [] else [WordFromBytes(blob[..8])] + WordsFromBlob(blob[8..])
  }

  /** Reading back what was stored gives the words that were stored. */
  lemma {:induction false} BlobRoundTrip(words: seq<Word>)
    ensures WordsFromBlob(BlobFromWords(words)) == words
  {
    if words != [] {
      var blob := BlobFromWords(words);
      assert blob[..8] == BytesFromWord(words[0]);
      assert blob[8..] == BlobFromWords(words[1..]);
      WordRoundTrip(words[0]);
      BlobRoundTrip(words[1..]);
    }
  }

  /** Storing what was read back gives the blob again, less a final partial word. */
  lemma {:induction false} WordsRoundTrip(blob: Blob)
    ensures BlobFromWords(WordsFromBlob(blob)) == blob[..8 * (|blob| / 8)]
  {
    if |blob| >= 8 {
      WordsRoundTrip(blob[8..]);
      BytesRoundTrip(blob[..8]);
      var whole := 8 * (|blob| / 8);
      assert blob[..whole] == blob[..8] + blob[8..][..whole - 8];
    }
  }

  /** Comparing stored key blobs is comparing keys. */
  lemma BlobInjective(a: seq<Word>, b: seq<Word>)
    requires BlobFromWords(a) == BlobFromWords(b)
    ensures a == b
  {
    BlobRoundTrip(a);
    BlobRoundTrip(b);
  }

  // ---------------------------------------------------------------- keys as numbers

  function Pow(n: nat): (p: nat)
    ensures p > 0
  {
    if n == 0 then 1 else BASE * Pow(n - 1)
  }

  /** A key read as a big-endian number in base 2^64, each signed word shifted to a digit. */
  function KeyValue(key: Key): (v: nat)
  {
    if key == [] then 0 else KeyValue(key[..|key| - 1]) * BASE + (key[|key| - 1] - WORD_MIN)
  }

  /** The key of a given length with a given value. */
  function KeyOf(len: nat, v: nat): (key: Key)
    ensures |key| == len
  {
    if len == 0 then [] else KeyOf(len - 1, v / BASE) + [v % BASE + WORD_MIN]
  }

  lemma {:induction false} KeyValueBound(key: Key)
    ensures KeyValue(key) < Pow(|key|)
  {
    if key != [] {
      var front := key[..|key| - 1];
      KeyValueBound(front);
      assert KeyValue(front) * BASE + BASE <= Pow(|front|) * BASE;
    }
  }

  lemma {:induction false} KeyOfValue(key: Key)
    ensures KeyOf(|key|, KeyValue(key)) == key
  {
    if key != [] {
      KeyOfValue(key[..|key| - 1]);
    }
  }

  lemma {:induction false} ValueOfKey(len: nat, v: nat)
    requires v < Pow(len)
    ensures KeyValue(KeyOf(len, v)) == v
  {
    if len > 0 {
      assert v / BASE < Pow(len - 1);
      ValueOfKey(len - 1, v / BASE);
      assert KeyOf(len, v)[..len - 1] == KeyOf(len - 1, v / BASE);
    }
  }

  /** The order of keys of one length is the order of their values: the first word that differs decides. */
  lemma {:induction false} KeyOrder(a: Key, b: Key)
    requires |a| == |b|
    ensures KeyValue(a) < KeyValue(b) <==> exists i :: 0 <= i < |a| && a[..i] == b[..i] && a[i] < b[i]
  {
    hide KeyValue;
    if a != [] {
      var k := |a| - 1;
      KeyOrder(a[..k], b[..k]);
      LastWordOrder(a, b);
      FirstDifference(a, b);
    } else {
      assert a == b;
    }
  }

  lemma FirstDifference(a: Key, b: Key)
    requires |a| == |b| > 0
    ensures
      var (k, front, other) := (|a| - 1, a[..|a| - 1], b[..|b| - 1]);
      (exists i :: 0 <= i < |a| && a[..i] == b[..i] && a[i] < b[i])
      <==> (exists i :: 0 <= i < k && front[..i] == other[..i] && front[i] < other[i]) || (front == other && a[k] < b[k])
  {
    var k := |a| - 1;
    forall i | 0 <= i < k ensures a[..k][..i] == a[..i] && b[..k][..i] == b[..i] {}
    if i :| 0 <= i < k && a[..k][..i] == b[..k][..i] && a[..k][i] < b[..k][i] {
      assert a[..i] == b[..i] && a[i] < b[i];
    }
    if i :| 0 <= i < k && a[..i] == b[..i] && a[i] < b[i] {
      assert a[..k][..i] == b[..k][..i] && a[..k][i] < b[..k][i];
    }
  }

  /** The last word decides where those before it are the same. */
  lemma {:induction false} LastWordOrder(a: Key, b: Key)
    requires |a| == |b| > 0
    ensures
      var (k, front, other) := (|a| - 1, a[..|a| - 1], b[..|b| - 1]);
      KeyValue(a) < KeyValue(b) <==> KeyValue(front) < KeyValue(other) || (front == other && a[k] < b[k])
  {
    var k := |a| - 1;
    var x, y := KeyValue(a[..k]), KeyValue(b[..k]);
    KeyOfValue(a[..k]);
    KeyOfValue(b[..k]);
    assert x == y <==> a[..k] == b[..k];
    assert x < y ==> (x + 1) * BASE <= y * BASE;
    assert y < x ==> (y + 1) * BASE <= x * BASE;
  }

  /** `next_key` as an expression: increment the last word, carrying over maximal words. */
  function NextKey(key: Key): (next: Option<Key>)
    ensures next.Some? ==> |next.value| == |key|
  {
    if key == [] then None
    else
      var front, last := key[..|key| - 1], key[|key| - 1];
      if last < WORD_MAX then Some(front + [last + 1])
      else match NextKey(front)
        case None => None
        case Some(carried) => Some(carried + [WORD_MIN])
  }

  lemma {:induction false} LastWordGrows(front: Key, last: Word)
    requires last < WORD_MAX
    ensures KeyValue(front + [last]) + 1 < Pow(|front| + 1)
    ensures front + [last + 1] == KeyOf(|front| + 1, KeyValue(front + [last]) + 1)
  {
    hide KeyOf, Pow;
    var key, next := front + [last], front + [last + 1];
    assert key[..|front|] == front && next[..|front|] == front;
    assert KeyValue(next) == KeyValue(key) + 1;
    KeyValueBound(next);
    KeyOfValue(next);
    assert next == KeyOf(|next|, KeyValue(next));
  }

  lemma Shifted(a: nat, b: nat)
    ensures a * BASE < b * BASE <==> a < b
    ensures a * BASE / BASE == a && a * BASE % BASE == 0
  {
  }

  /** A carry out of a maximal last word. */
  lemma {:induction false} LastWordWraps(front: Key)
    ensures KeyValue(front + [WORD_MAX]) + 1 < Pow(|front| + 1) <==> KeyValue(front) + 1 < Pow(|front|)
    ensures KeyOf(|front| + 1, KeyValue(front + [WORD_MAX]) + 1) == KeyOf(|front|, KeyValue(front) + 1) + [WORD_MIN]
  {
    var key, v := front + [WORD_MAX], KeyValue(front) + 1;
    assert key[..|front|] == front;
    assert KeyValue(key) + 1 == v * BASE;
    Shifted(v, Pow(|front|));
  }

  /** The successor is exact: it adds one, and is missing exactly at the greatest key. */
  lemma {:induction false} NextKeyIsSuccessor(key: Key)
    ensures NextKey(key).Some? <==> KeyValue(key) + 1 < Pow(|key|)
    ensures NextKey(key).Some? ==> NextKey(key).value == KeyOf(|key|, KeyValue(key) + 1)
  {
    if key == [] {
      assert KeyValue(key) == 0;
    } else {
      var front, last := key[..|key| - 1], key[|key| - 1];
      assert key == front + [last];
      if last < WORD_MAX {
        LastWordGrows(front, last);
      } else {
        LastWordWraps(front);
        NextKeyIsSuccessor(front);
      }
      hide KeyOf, Pow, KeyValue;
    }
  }

  /** Every word is maximal exactly when there is no successor. */
  lemma {:induction false} NoNextKey(key: Key)
    ensures NextKey(key).None? <==> forall i :: 0 <= i < |key| ==> key[i] == WORD_MAX
  {
    if key != [] {
      NoNextKey(key[..|key| - 1]);
    }
  }

  function Wrapped(n: nat): seq<Word> {
    seq(n, _ => WORD_MIN)
  }

  /** A carry runs over a tail of maximal words and stops at the word before them. */
  lemma {:induction false} CarryChain(key: Key, i: nat)
    requires i < |key| && key[i] < WORD_MAX
    requires forall j :: i < j < |key| ==> key[j] == WORD_MAX
    ensures NextKey(key) == Some(key[..i] + [key[i] + 1] + Wrapped(|key| - i - 1))
  {
    if i == |key| - 1 {
      assert key[..i] + [key[i] + 1] == key[..i] + [key[i] + 1] + Wrapped(|key| - i - 1);
    } else {
      var front := key[..|key| - 1];
      CarryChain(front, i);
      assert front[..i] == key[..i];
      assert NextKey(front) == Some(key[..i] + [key[i] + 1] + Wrapped(|key| - i - 2));
      assert NextKey(key) == Some(NextKey(front).value + [WORD_MIN]);
      assert NextKey(front).value + [WORD_MIN] == key[..i] + [key[i] + 1] + Wrapped(|key| - i - 1);
    }
  }

  /** `next_key` as the source runs it: a reverse loop over the words of the key, in place. */
  method NextKeyInPlace(key: array<Word>) returns (ok: bool)
    modifies key
    ensures ok <==> NextKey(old(key[..])).Some?
    ensures ok ==> key[..] == NextKey(old(key[..])).value
  {
    ghost var was := key[..];
    var i := key.Length;
    while i > 0
      invariant 0 <= i <= key.Length
      invariant key[..i] == was[..i]
      invariant forall j :: i <= j < key.Length ==> was[j] == WORD_MAX && key[j] == WORD_MIN
    {
      i := i - 1;
      assert key[i] == key[..i + 1][i] == was[i];
      if key[i] == WORD_MAX {
        key[i] := WORD_MIN;
      } else {
        key[i] := key[i] + 1;
        CarryChain(was, i);
        assert key[..] == was[..i] + [was[i] + 1] + Wrapped(key.Length - i - 1);
        return true;
      }
    }
    NoNextKey(was);
    return false;
  }
}
