/** The byte format of native proofs: a word count and the words, each in eight little-endian bytes. */
module ProofCodec {
  import opened Machine
  import opened Powers
  import opened Words

  type Byte = x: int | 0 <= x < 256

  type Proof = seq<Word>

  const MAX_PROOF_BYTES: nat := 64 * 1024 * 1024

  datatype Result = Accepted(proof: Proof) | BadLength | BadCount | Noncanonical

  // ----- little-endian words -----

  function Power256(n: nat): (p: nat)
    ensures p >= 1
  {
    if n == 0 then 1 else 256 * Power256(n - 1)
  }

  function ToLe(v: nat, n: nat): (bytes: seq<Byte>)
    ensures |bytes| == n
    decreases n
  {
    if n == 0 then [] else [v % 256] + ToLe(v / 256, n - 1)
  }

  function FromLe(bytes: seq<Byte>): nat {
    if bytes == [] then 0 else bytes[0] + 256 * FromLe(bytes[1..])
  }

  lemma {:induction false} FromToLe(v: nat, n: nat)
    requires v < Power256(n)
    ensures FromLe(ToLe(v, n)) == v
    decreases n
  {
    if n > 0 {
      FromToLe(v / 256, n - 1);
      assert ToLe(v, n)[1..] == ToLe(v / 256, n - 1);
    }
  }

  lemma {:induction false} ToFromLe(bytes: seq<Byte>)
    ensures ToLe(FromLe(bytes), |bytes|) == bytes && FromLe(bytes) < Power256(|bytes|)
    decreases |bytes|
  {
    if bytes != [] {
      ToFromLe(bytes[1..]);
      assert bytes == [bytes[0]] + bytes[1..];
    }
  }

  lemma EightBytes()
    ensures Power256(8) == 0x1_0000_0000_0000_0000
  {
    assert Power256(4) == 0x1_0000_0000;
  }

  // ----- encoding -----

  function Fields(words: seq<Word>): (bytes: seq<Byte>)
    ensures |bytes| == 8 * |words|
  {
    if words == [] then [] else ToLe(words[0], 8) + Fields(words[1..])
  }

  function Encode(proof: Proof): (bytes: seq<Byte>)
    ensures |bytes| == 8 + 8 * |proof|
  {
    ToLe(|proof|, 8) + Fields(proof)
  }

  method ProofToBytes(proof: Proof) returns (bytes: seq<Byte>)
    ensures bytes == Encode(proof)
  {
    hide ToLe;
    bytes := ToLe(|proof|, 8);
    ghost var written := [];
    for k := 0 to |proof|
      invariant bytes == ToLe(|proof|, 8) + written
      invariant written + Fields(proof[k..]) == Fields(proof)
    {
      bytes := bytes + ToLe(proof[k], 8);
      assert proof[k..][1..] == proof[k + 1..];
      Assoc(written, ToLe(proof[k], 8), Fields(proof[k + 1..]));
      Assoc(ToLe(|proof|, 8), written, ToLe(proof[k], 8));
      written := written + ToLe(proof[k], 8);
    }
    assert written + [] == written;
  }

  /** Byte `i` of a little-endian number is its digit for 256 to the power of `i`. */
  lemma {:induction false} ByteAt(v: nat, n: nat, i: nat)
    requires i < n
    ensures ToLe(v, n)[i] == v / Power256(i) % 256
    decreases n
  {
    if i > 0 {
      ByteAt(v / 256, n - 1, i - 1);
      DivideTwice(v, 256, Power256(i - 1));
    }
  }

  lemma DivideTwice(v: nat, a: nat, b: nat)
    requires a > 0 && b > 0
    ensures a * b > 0 && v / a / b == v / (a * b)
  {
    var u := v / a;
    var q, r, x := u / b, u % b, v % a;
    QuotientIsNat(v, a);
    QuotientIsNat(u, b);
    DivisionIs(v, a);
    DivisionIs(u, b);
    Regroup(q, b, r, a, x);
    QuotientIs(v, a * b, q, r * a + x);
  }

  lemma Regroup(q: nat, b: nat, r: nat, a: nat, x: nat)
    requires r < b && x < a
    ensures (q * b + r) * a + x == q * (a * b) + (r * a + x)
    ensures 0 <= r * a + x < a * b
  {
    TimesGrows(b - r, a);
    assert a * b == r * a + (b - r) * a;
  }

  lemma {:induction false} FieldsAt(words: seq<Word>, j: nat, i: nat)
    requires j < |words| && i < 8
    ensures Fields(words)[8 * j + i] == ToLe(words[j], 8)[i]
    decreases |words|
  {
    hide ToLe;
    if j > 0 {
      FieldsAt(words[1..], j - 1, i);
    }
  }

  /** The bytes are the count and the words, each in eight bytes, the lowest first. */
  lemma EncodingAt(proof: Proof, i: nat)
    requires i < 8
    ensures Encode(proof)[i] == |proof| / Power256(i) % 256
    ensures forall j :: 0 <= j < |proof| ==> Encode(proof)[8 + 8 * j + i] == proof[j] / Power256(i) % 256
  {
    hide ToLe, Fields, Power256;
    ByteAt(|proof|, 8, i);
    forall j | 0 <= j < |proof|
      ensures Encode(proof)[8 + 8 * j + i] == proof[j] / Power256(i) % 256
    {
      FieldsAt(proof, j, i);
      ByteAt(proof[j], 8, i);
    }
  }

  // ----- decoding -----

  /** The words of whole eight-byte chunks; none if one of them is not below the modulus. */
  function Chunks(bytes: seq<Byte>): Option<seq<Word>>
    requires |bytes| % 8 == 0
  {
    if bytes == [] then Some([]) else
    var v := FromLe(bytes[..8]);
    if v >= P then None else
    var rest := Chunks(bytes[8..]);
    if rest.None? then None else Some([v as Word] + rest.value)
  }

  function Decode(bytes: seq<Byte>): Result {
    if |bytes| < 8 || |bytes| > MAX_PROOF_BYTES || |bytes| % 8 != 0 then BadLength
    else if FromLe(bytes[..8]) != (|bytes| - 8) / 8 then BadCount
    else
      var words := Chunks(bytes[8..]);
      if words.None? then Noncanonical else Accepted(words.value)
  }

  lemma {:induction false} ChunksOfFields(words: seq<Word>)
    ensures Chunks(Fields(words)) == Some(words)
  {
    hide ToLe, FromLe, Power256;
    if words != [] {
      var bytes := Fields(words);
      EightBytes();
      FromToLe(words[0], 8);
      ChunksOfFields(words[1..]);
      assert bytes[..8] == ToLe(words[0], 8) && bytes[8..] == Fields(words[1..]);
      assert words == [words[0]] + words[1..];
    }
  }

  lemma {:induction false} FieldsOfChunks(bytes: seq<Byte>)
    requires |bytes| % 8 == 0 && Chunks(bytes).Some?
    ensures Fields(Chunks(bytes).value) == bytes
    decreases |bytes|
  {
    hide ToLe, FromLe;
    if bytes != [] {
      var words := Chunks(bytes).value;
      ToFromLe(bytes[..8]);
      FieldsOfChunks(bytes[8..]);
      assert words[1..] == Chunks(bytes[8..]).value;
      assert bytes == bytes[..8] + bytes[8..];
    }
  }

  /** Decoding gives back any proof whose encoding is within the size limit. */
  lemma DecodeEncode(proof: Proof)
    requires |Encode(proof)| <= MAX_PROOF_BYTES
    ensures Decode(Encode(proof)) == Accepted(proof)
  {
    hide ToLe, FromLe, Fields, Chunks, Power256;
    var bytes := Encode(proof);
    EightBytes();
    FromToLe(|proof|, 8);
    ChunksOfFields(proof);
    assert bytes[..8] == ToLe(|proof|, 8) && bytes[8..] == Fields(proof);
  }

  /** Accepted bytes are the encoding of what they decode to. */
  lemma EncodeDecode(bytes: seq<Byte>)
    requires Decode(bytes).Accepted?
    ensures Encode(Decode(bytes).proof) == bytes
  {
    hide ToLe, FromLe, Fields, Chunks;
    var words := Decode(bytes).proof;
    ToFromLe(bytes[..8]);
    FieldsOfChunks(bytes[8..]);
    assert |bytes| - 8 == 8 * |words|;
    assert bytes == bytes[..8] + bytes[8..];
  }

  /** Exactly the encodings of proofs, within the size limit, are accepted, each for one proof only. */
  lemma AcceptsExactlyEncodings(bytes: seq<Byte>, proof: Proof)
    ensures Decode(bytes) == Accepted(proof) <==> bytes == Encode(proof) && |bytes| <= 64 * 1024 * 1024
  {
    hide Encode;
    if Decode(bytes) == Accepted(proof) {
      EncodeDecode(bytes);
    }
    if bytes == Encode(proof) && |bytes| <= 64 * 1024 * 1024 {
      DecodeEncode(proof);
    }
  }
}
