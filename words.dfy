/** Byte and word conventions of RFC 1321 section 2: a 32-bit word is a
    sequence of four bytes with the low-order byte first. */
module Words {

  /** The four bytes of `w`, low-order byte first. */
  function LeBytes(w: bv32): (r: seq<bv8>)
    ensures |r| == 4
  {
    [(w & 0xFF) as bv8, ((w >> 8) & 0xFF) as bv8, ((w >> 16) & 0xFF) as bv8, (w >> 24) as bv8]
  }

  /** The word stored little-endian in `b[i..i + 4]`. */
  function WordAt(b: seq<bv8>, i: nat): bv32
    requires i + 4 <= |b|
  {
    (b[i] as bv32) | ((b[i + 1] as bv32) << 8) | ((b[i + 2] as bv32) << 16) | ((b[i + 3] as bv32) << 24)
  }

  /** Reading a word back from its bytes gives the word. */
  lemma WordOfBytes(w: bv32)
    ensures WordAt(LeBytes(w), 0) == w
  {
  }

  /** Writing the word read from four bytes gives the same bytes. */
  lemma BytesOfWord(b: seq<bv8>, i: nat)
    requires i + 4 <= |b|
    ensures LeBytes(WordAt(b, i)) == b[i..i + 4]
  {
  }

  /** The words stored little-endian in `b`, four bytes each, in order; for
      a 64-byte block these are the sixteen words the compression function reads. */
  function WordsOf(b: seq<bv8>): (k: seq<bv32>)
    requires |b| % 4 == 0
    ensures |k| == |b| / 4
  {
    if b == [] then [] else [WordAt(b, 0)] + WordsOf(b[4..])
  }

  /** Word `j` is read from bytes 4j to 4j + 3. */
  lemma {:induction false} WordsOfAt(b: seq<bv8>, j: nat)
    requires |b| % 4 == 0 && j < |b| / 4
    ensures WordsOf(b)[j] == WordAt(b, 4 * j)
  {
    if j > 0 {
      WordsOfAt(b[4..], j - 1);
      assert WordAt(b[4..], 4 * (j - 1)) == WordAt(b, 4 * j);
    }
  }

  /** A word read at the front of `a + b` lies wholly in `a`. */
  lemma WordAtPrefix(a: seq<bv8>, b: seq<bv8>)
    requires 4 <= |a|
    ensures WordAt(a + b, 0) == WordAt(a, 0)
  {
    assert (a + b)[..4] == a[..4];
    assert (a + b)[0] == a[0] && (a + b)[1] == a[1] && (a + b)[2] == a[2] && (a + b)[3] == a[3];
  }

  /** The bytes of a word sequence, each word low-order byte first. */
  function Flatten(ws: seq<bv32>): (r: seq<bv8>)
    ensures |r| == 4 * |ws|
  {
    if ws == [] then [] else LeBytes(ws[0]) + Flatten(ws[1..])
  }

  lemma {:induction false} FlattenAt(ws: seq<bv32>, j: nat)
    requires j < |ws|
    ensures Flatten(ws)[4 * j..4 * j + 4] == LeBytes(ws[j])
  {
    if j > 0 {
      FlattenAt(ws[1..], j - 1);
      assert Flatten(ws) == LeBytes(ws[0]) + Flatten(ws[1..]);
      assert Flatten(ws)[4 * j..4 * j + 4] == Flatten(ws[1..])[4 * (j - 1)..4 * (j - 1) + 4];
    }
  }

  /** Reading the words of a byte string and writing them back gives the bytes. */
  lemma {:induction false} FlattenWordsOf(b: seq<bv8>)
    requires |b| % 4 == 0
    ensures Flatten(WordsOf(b)) == b
  {
    if b != [] {
      FlattenWordsOf(b[4..]);
      BytesOfWord(b, 0);
      assert WordsOf(b)[1..] == WordsOf(b[4..]);
      assert b == b[0..4] + b[4..];
    }
  }

  /** Writing words and reading them back gives the words. */
  lemma {:induction false} WordsOfFlatten(ws: seq<bv32>)
    ensures WordsOf(Flatten(ws)) == ws
  {
    if ws != [] {
      WordsOfFlatten(ws[1..]);
      var f := Flatten(ws);
      assert f == LeBytes(ws[0]) + Flatten(ws[1..]);
      assert f[4..] == Flatten(ws[1..]);
      WordAtPrefix(LeBytes(ws[0]), Flatten(ws[1..]));
      WordOfBytes(ws[0]);
    }
  }
}
