/** PackFloat32 and UnpackFloat32 in internal/ai/embeddings.go. A float32 is its
    32-bit pattern, as math.Float32bits gives it. */
module EmbeddingCodec {
  import opened SqlAst

  newtype Byte = x: int | 0 <= x < 0x100
  newtype Bits = x: int | 0 <= x < 0x1_0000_0000

  /** binary.LittleEndian.Uint32 of four bytes. */
  function Word(b0: Byte, b1: Byte, b2: Byte, b3: Byte): Bits {
    (b0 as int + 0x100 * (b1 as int + 0x100 * (b2 as int + 0x100 * b3 as int))) as Bits
  }

  /** w >> 8k */
  function Shifted(w: Bits, k: nat): (r: nat)
    ensures r <= w as int
  {
    if k == 0 then w as int else Shifted(w, k - 1) / 0x100
  }

  /** Byte k of a word, least significant first. */
  function ByteOf(w: Bits, k: nat): Byte {
    (Shifted(w, k) % 0x100) as Byte
  }

  lemma LowHigh(low: int, high: int)
    requires 0 <= low < 0x100
    ensures (low + 0x100 * high) % 0x100 == low && (low + 0x100 * high) / 0x100 == high
  {
  }

  lemma WordOfBytes(w: Bits)
    ensures Word(ByteOf(w, 0), ByteOf(w, 1), ByteOf(w, 2), ByteOf(w, 3)) == w
  {
    assert forall n: nat :: n == n % 0x100 + 0x100 * (n / 0x100);
    var q1, q2, q3 := Shifted(w, 1), Shifted(w, 2), Shifted(w, 3);
    assert q1 == w as int / 0x100 && q2 == q1 / 0x100 && q3 == q2 / 0x100;
    assert q3 < 0x100;
  }

  lemma BytesOfWord(b0: Byte, b1: Byte, b2: Byte, b3: Byte)
    ensures var w := Word(b0, b1, b2, b3);
            ByteOf(w, 0) == b0 && ByteOf(w, 1) == b1 && ByteOf(w, 2) == b2 && ByteOf(w, 3) == b3
  {
    var w := Word(b0, b1, b2, b3);
    var h2 := b2 as int + 0x100 * b3 as int;
    var h1 := b1 as int + 0x100 * h2;
    LowHigh(b0 as int, h1);
    LowHigh(b1 as int, h2);
    LowHigh(b2 as int, b3 as int);
    assert Shifted(w, 1) == h1;
    assert Shifted(w, 2) == h2;
    assert Shifted(w, 3) == b3 as int;
  }

  /** The bytes are the little-endian form of the vector. */
  ghost predicate Encodes(bytes: seq<Byte>, v: seq<Bits>) {
    |bytes| == 4 * |v| && forall j :: 0 <= j < |bytes| ==> bytes[j] == ByteOf(v[j / 4], j % 4)
  }

  /** Word i of a byte string stands at bytes 4i to 4i + 3. */
  lemma EncodedWord(bytes: seq<Byte>, v: seq<Bits>, i: nat)
    requires Encodes(bytes, v) && i < |v|
    ensures v[i] == Word(bytes[4 * i], bytes[4 * i + 1], bytes[4 * i + 2], bytes[4 * i + 3])
  {
    WordOfBytes(v[i]);
    assert bytes[4 * i] == ByteOf(v[i], 0) && bytes[4 * i + 1] == ByteOf(v[i], 1);
    assert bytes[4 * i + 2] == ByteOf(v[i], 2) && bytes[4 * i + 3] == ByteOf(v[i], 3);
  }

  method PackFloat32(v: array<Bits>) returns (buf: array<Byte>)
    ensures fresh(buf) && Encodes(buf[..], v[..])
  {
    hide ByteOf;
    buf := new Byte[4 * v.Length](_ => 0);
    for i := 0 to v.Length
      invariant forall j :: 0 <= j < 4 * i ==> buf[j] == ByteOf(v[j / 4], j % 4)
    {
      var w := v[i];
      buf[4 * i] := ByteOf(w, 0);
      buf[4 * i + 1] := ByteOf(w, 1);
      buf[4 * i + 2] := ByteOf(w, 2);
      buf[4 * i + 3] := ByteOf(w, 3);
    }
  }

  /** An error exactly when the length is not a multiple of 4. */
  method UnpackFloat32(b: array<Byte>) returns (r: Option<array<Bits>>)
    ensures r.None? <==> b.Length % 4 != 0
    ensures r.Some? ==> fresh(r.value) && Encodes(b[..], r.value[..])
  {
    hide ByteOf, Word;
    if b.Length % 4 != 0 {
      return None;
    }
    var out := new Bits[b.Length / 4](_ => 0);
    for i := 0 to out.Length
      invariant forall j :: 0 <= j < 4 * i ==> b[j] == ByteOf(out[j / 4], j % 4)
    {
      out[i] := Word(b[4 * i], b[4 * i + 1], b[4 * i + 2], b[4 * i + 3]);
      BytesOfWord(b[4 * i], b[4 * i + 1], b[4 * i + 2], b[4 * i + 3]);
    }
    r := Some(out);
  }

  /** A byte string holds one vector. */
  lemma DecodingIsUnique(bytes: seq<Byte>, v: seq<Bits>, u: seq<Bits>)
    requires Encodes(bytes, v) && Encodes(bytes, u)
    ensures v == u
  {
    forall i | 0 <= i < |v| ensures v[i] == u[i] {
      EncodedWord(bytes, v, i);
      EncodedWord(bytes, u, i);
    }
  }

  /** Main result: unpacking what was packed gives the vector back. */
  method PackThenUnpack(v: array<Bits>) returns (u: array<Bits>)
    ensures u[..] == v[..]
  {
    var buf := PackFloat32(v);
    var r := UnpackFloat32(buf);
    u := r.value;
    DecodingIsUnique(buf[..], v[..], u[..]);
  }

  /** Main result: packing what was unpacked gives the bytes back. */
  method UnpackThenPack(b: array<Byte>) returns (buf: array<Byte>)
    requires b.Length % 4 == 0
    ensures buf[..] == b[..]
  {
    var r := UnpackFloat32(b);
    buf := PackFloat32(r.value);
  }

  /** Main result: what the bytes of a vector are. Word i is the number whose
      digits to base 256 stand at 4i to 4i + 3, the least significant first. */
  lemma LittleEndianIff(bytes: seq<Byte>, v: seq<Bits>)
    ensures Encodes(bytes, v)
       <==> |bytes| == 4 * |v|
            && forall i :: 0 <= i < |v| ==>
                 v[i] as int == bytes[4 * i] as int + 0x100 * (bytes[4 * i + 1] as int)
                                + 0x1_0000 * (bytes[4 * i + 2] as int) + 0x100_0000 * (bytes[4 * i + 3] as int)
  {
    hide ByteOf;
    if |bytes| == 4 * |v| {
      forall i | 0 <= i < |v|
        ensures (forall k :: 0 <= k < 4 ==> bytes[4 * i + k] == ByteOf(v[i], k))
           <==> v[i] as int == bytes[4 * i] as int + 0x100 * (bytes[4 * i + 1] as int)
                               + 0x1_0000 * (bytes[4 * i + 2] as int) + 0x100_0000 * (bytes[4 * i + 3] as int)
      {
        WordOfBytes(v[i]);
        BytesOfWord(bytes[4 * i], bytes[4 * i + 1], bytes[4 * i + 2], bytes[4 * i + 3]);
        if forall k :: 0 <= k < 4 ==> bytes[4 * i + k] == ByteOf(v[i], k) {
          assert bytes[4 * i + 0] == ByteOf(v[i], 0) && bytes[4 * i + 1] == ByteOf(v[i], 1)
              && bytes[4 * i + 2] == ByteOf(v[i], 2) && bytes[4 * i + 3] == ByteOf(v[i], 3);
        }
      }
      ByWords(bytes, v);
    }
  }

  /** Byte j is byte j % 4 of word j / 4. */
  lemma ByWords(bytes: seq<Byte>, v: seq<Bits>)
    requires |bytes| == 4 * |v|
    ensures Encodes(bytes, v)
       <==> forall i :: 0 <= i < |v| ==> forall k :: 0 <= k < 4 ==> bytes[4 * i + k] == ByteOf(v[i], k)
  {
    hide ByteOf;
    if forall i :: 0 <= i < |v| ==> forall k :: 0 <= k < 4 ==> bytes[4 * i + k] == ByteOf(v[i], k) {
      forall j | 0 <= j < |bytes| ensures bytes[j] == ByteOf(v[j / 4], j % 4) {
        assert 4 * (j / 4) + j % 4 == j;
      }
    }
    if Encodes(bytes, v) {
      forall i, k | 0 <= i < |v| && 0 <= k < 4 ensures bytes[4 * i + k] == ByteOf(v[i], k) {
        assert (4 * i + k) / 4 == i && (4 * i + k) % 4 == k;
      }
    }
  }
}
