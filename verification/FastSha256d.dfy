/**
 The midstate double-SHA256 hasher of the mining device, against the plain hash.

 The reference is SHA-256 as in FIPS 180-4: padding of section 5.1.1 and the block iteration of
 section 6.2.2, with the compression function left as a parameter.
 */
module FastSha256d {
  import opened Bytes

  type Words8 = s: seq<word> | |s| == 8 witness [0, 0, 0, 0, 0, 0, 0, 0]
  type Block = s: seq<byte> | |s| == 64 witness Zeros(64)
  type Compressor = (Words8, Block) -> Words8

  const IV: Words8 :=
    [0x6a09e667, 0xbb67ae85, 0x3c6ef372, 0xa54ff53a, 0x510e527f, 0x9b05688c, 0x1f83d9ab, 0x5be0cd19]

  /** The `n` low-order bytes of `v`, most significant first. */
  function BeBytes(v: nat, n: nat): (s: seq<byte>)
    ensures |s| == n
  {
    if n == 0 then [] else BeBytes(v / 256, n - 1) + [v % 256]
  }

  function WordsBe(ws: seq<word>): (s: seq<byte>)
    ensures |s| == 4 * |ws|
  {
    if ws == [] then [] else WordsBe(ws[..|ws| - 1]) + WordBe(ws[|ws| - 1])
  }

  /** The value of a byte string read with its most significant byte first. */
  function BeNat(s: seq<byte>): nat {
    if s == [] then 0 else 256 * BeNat(s[..|s| - 1]) + s[|s| - 1]
  }

  lemma {:induction false} BeRoundTrip(v: nat, n: nat)
    requires v < Pow256(n)
    ensures BeNat(BeBytes(v, n)) == v
  {
    if n > 0 {
      BeRoundTrip(v / 256, n - 1);
      assert BeBytes(v, n)[..n - 1] == BeBytes(v / 256, n - 1);
    }
  }

  lemma WordBeValue(w: word)
    ensures BeNat(WordBe(w)) == w
  {
    BeFour(w / 0x100_0000, w / 0x1_0000 % 256, w / 0x100 % 256, w % 256);
    FourDigits(w);
  }

  lemma FourDigits(w: word)
    ensures w == 0x100_0000 * (w / 0x100_0000) + 0x1_0000 * (w / 0x1_0000 % 256) + 0x100 * (w / 0x100 % 256) + w % 256
  {
    assert w / 0x100 / 0x100 == w / 0x1_0000 && w / 0x1_0000 / 0x100 == w / 0x100_0000;
  }

  lemma BeFour(a: byte, b: byte, c: byte, d: byte)
    ensures BeNat([a, b, c, d]) == 0x100_0000 * a + 0x1_0000 * b + 0x100 * c + d
  {
    BeSnoc([], a);
    BeSnoc([a], b);
    BeSnoc([a, b], c);
    BeSnoc([a, b, c], d);
    assert [] + [a] == [a] && [a] + [b] == [a, b] && [a, b] + [c] == [a, b, c] && [a, b, c] + [d] == [a, b, c, d];
  }

  lemma BeSnoc(s: seq<byte>, b: byte)
    ensures BeNat(s + [b]) == 256 * BeNat(s) + b
  {
    assert (s + [b])[..|s|] == s;
  }

  /** The words of a digest lie in order, each with its most significant byte first. */
  lemma {:induction false} DigestWord(ws: seq<word>, i: nat)
    requires i < |ws|
    ensures WordsBe(ws)[4 * i..4 * i + 4] == WordBe(ws[i]) && BeNat(WordsBe(ws)[4 * i..4 * i + 4]) == ws[i]
  {
    WordBeValue(ws[i]);
    var n := |ws| - 1;
    if i < n {
      DigestWord(ws[..n], i);
      assert WordsBe(ws)[4 * i..4 * i + 4] == WordsBe(ws[..n])[4 * i..4 * i + 4];
    }
  }

  /** The word is the first 32 bits of the fractional part of the square root of `p`, whose whole part is `whole`. */
  predicate RootFraction(p: nat, whole: nat, w: word) {
    var x := whole * 0x1_0000_0000 + w;
    x * x <= p * 0x1_0000_0000_0000_0000 < (x + 1) * (x + 1)
  }

  /** The initial hash value comes from the first eight primes (section 5.3.3 of FIPS 180-4). */
  lemma InitialValue()
    ensures RootFraction(2, 1, IV[0]) && RootFraction(3, 1, IV[1]) && RootFraction(5, 2, IV[2])
    ensures RootFraction(7, 2, IV[3]) && RootFraction(11, 3, IV[4]) && RootFraction(13, 3, IV[5])
    ensures RootFraction(17, 4, IV[6]) && RootFraction(19, 4, IV[7])
  {
  }

  // ---------------------------------------------------------------- the reference

  lemma PaddedLength(n: nat)
    ensures (n + 9 + (55 - n) % 64) % 64 == 0
  {
    var k := 1 - (55 - n) / 64;
    assert n + 9 + (55 - n) % 64 == 64 * k;
  }

  function Pad(msg: seq<byte>): (p: seq<byte>)
    ensures |p| % 64 == 0
  {
    PaddedLength(|msg|);
    msg + [0x80] + Zeros((55 - |msg|) % 64) + BeBytes(8 * |msg|, 8)
  }

  /** The message, a one bit, as few zeros as possible, and the length in bits: the message can be read off. */
  lemma PaddedMessage(msg: seq<byte>)
    requires 8 * |msg| < Pow256(8)
    ensures var p, n := Pad(msg), |msg|;
            && n + 9 <= |p| < n + 9 + 64 && p[..n] == msg && p[n] == 0x80
            && (forall i :: n < i < |p| - 8 ==> p[i] == 0) && BeNat(p[|p| - 8..]) == 8 * n
  {
    BeRoundTrip(8 * |msg|, 8);
    var p := Pad(msg);
    assert p[|p| - 8..] == BeBytes(8 * |msg|, 8);
  }

  function Blocks(compress: Compressor, state: Words8, bytes: seq<byte>): Words8
    requires |bytes| % 64 == 0
    decreases |bytes|
  {
    if bytes == [] then state else Blocks(compress, compress(state, bytes[..64]), bytes[64..])
  }

  function Sha256(compress: Compressor, msg: seq<byte>): (digest: seq<byte>)
    ensures |digest| == 32
  {
    WordsBe(Blocks(compress, IV, Pad(msg)))
  }

  function Sha256d(compress: Compressor, msg: seq<byte>): (digest: seq<byte>)
    ensures |digest| == 32
  {
    Sha256(compress, Sha256(compress, msg))
  }

  // ---------------------------------------------------------------- the header

  type Hash = s: seq<byte> | |s| == 32 witness Zeros(32)

  datatype Header = Header(version: word, prev: Hash, merkleRoot: Hash, time: word, bits: word, nonce: word)

  /** Consensus serialization: 80 bytes, integers little-endian. */
  function Serialize(h: Header): (s: seq<byte>)
    ensures |s| == 80
  {
    LeBytes(h.version, 4) + h.prev + h.merkleRoot + LeBytes(h.time, 4) + LeBytes(h.bits, 4) + LeBytes(h.nonce, 4)
  }

  /** Where the fields lie in the 80 bytes, integers with their least significant byte first. */
  lemma HeaderFields(h: Header)
    ensures var s := Serialize(h);
            && LeNat(s[0..4]) == h.version && s[4..36] == h.prev && s[36..68] == h.merkleRoot
            && LeNat(s[68..72]) == h.time && LeNat(s[72..76]) == h.bits && LeNat(s[76..80]) == h.nonce
  {
    var s := Serialize(h);
    FourBytes();
    LeRoundTrip(h.version, 4);
    LeRoundTrip(h.time, 4);
    LeRoundTrip(h.bits, 4);
    LeRoundTrip(h.nonce, 4);
    Layout(LeBytes(h.version, 4), h.prev, h.merkleRoot, LeBytes(h.time, 4), LeBytes(h.bits, 4), LeBytes(h.nonce, 4));
  }

  lemma Layout(version: seq<byte>, prev: Hash, root: Hash, time: seq<byte>, bits: seq<byte>, nonce: seq<byte>)
    requires |version| == |time| == |bits| == |nonce| == 4
    ensures var s := version + prev + root + time + bits + nonce;
            && s[0..4] == version && s[4..36] == prev && s[36..68] == root
            && s[68..72] == time && s[72..76] == bits && s[76..80] == nonce
  {
  }

  lemma FourBytes()
    ensures Pow256(4) == 0x1_0000_0000
  {
    assert Pow256(2) == 256 * 256;
  }

  /** What the second 64-byte block of the padded header looks like. */
  function TailBlock(h: Header): (s: seq<byte>)
    ensures |s| == 64
  {
    h.merkleRoot[28..] + LeBytes(h.time, 4) + LeBytes(h.bits, 4) + LeBytes(h.nonce, 4)
    + [0x80] + Zeros(39) + BeBytes(640, 8)
  }

  function DigestPadding(): (s: seq<byte>)
    ensures |s| == 32
  {
    [0x80] + Zeros(23) + BeBytes(256, 8)
  }

  lemma OneBlock(compress: Compressor, state: Words8, b: Block)
    ensures Blocks(compress, state, b) == compress(state, b)
  {
    assert b[..64] == b && b[64..] == [];
    assert Blocks(compress, compress(state, b), []) == compress(state, b);
  }

  lemma TwoBlocks(compress: Compressor, a: Block, b: Block)
    ensures Blocks(compress, IV, a + b) == compress(compress(IV, a), b)
  {
    assert (a + b)[..64] == a && (a + b)[64..] == b;
    OneBlock(compress, compress(IV, a), b);
  }

  lemma SerializedTail(h: Header)
    ensures Serialize(h)[64..] == h.merkleRoot[28..] + LeBytes(h.time, 4) + LeBytes(h.bits, 4) + LeBytes(h.nonce, 4)
  {
  }

  lemma PaddedEighty(s: seq<byte>)
    requires |s| == 80
    ensures Pad(s) == s[..64] + (s[64..] + [0x80] + Zeros(39) + BeBytes(640, 8))
  {
    assert (55 - 80) % 64 == 39;
    assert s == s[..64] + s[64..];
  }

  /** The padded header is the static first 64 bytes followed by the tail block. */
  lemma HeaderDigest(compress: Compressor, h: Header)
    ensures Sha256(compress, Serialize(h)) == WordsBe(compress(compress(IV, Serialize(h)[..64]), TailBlock(h)))
  {
    var s := Serialize(h);
    SerializedTail(h);
    PaddedEighty(s);
    TwoBlocks(compress, s[..64], TailBlock(h));
  }

  /** A 32-byte message fits one block. */
  lemma DigestDigest(compress: Compressor, digest: seq<byte>)
    requires |digest| == 32
    ensures Sha256(compress, digest) == WordsBe(compress(IV, digest + DigestPadding()))
  {
    var b: Block := digest + DigestPadding();
    assert (55 - 32) % 64 == 23;
    assert Pad(digest) == b;
    OneBlock(compress, IV, b);
  }

  // ---------------------------------------------------------------- the fast form

  /** Rust's `copy_from_slice` into `dest[at..at + src.len()]`. */
  method CopyInto(dest: array<byte>, at: nat, src: seq<byte>)
    requires at + |src| <= dest.Length
    modifies dest
    ensures dest[..] == old(dest[..at]) + src + old(dest[at + |src|..])
  {
    for i := 0 to |src|
      invariant dest[..at] == old(dest[..at])
      invariant dest[at..at + i] == src[..i]
      invariant dest[at + i..] == old(dest[at + i..])
    {
      ghost var before := dest[..];
      dest[at + i] := src[i];
      assert dest[..] == before[at + i := src[i]];
    }
    assert dest[..] == dest[..at] + dest[at..at + |src|] + dest[at + |src|..];
  }

  /** A zeroed block with `head`, the padding bit and a bit length written into it. */
  method LastBlock(head: seq<byte>, bits: nat) returns (b: array<byte>)
    requires |head| < 56
    ensures fresh(b) && b.Length == 64
    ensures b[..|head|] == head
    ensures b[|head|..] == [0x80] + Zeros(55 - |head|) + BeBytes(bits, 8)
  {
    b := new byte[64](_ => 0);
    assert b[..] == Zeros(64);
    CopyInto(b, 0, head);
    assert b[..] == head + Zeros(64)[|head|..];
    b[|head|] := 0x80;
    ghost var marked := b[..];
    CopyInto(b, 56, BeBytes(bits, 8));
    Marked(head, marked);
    assert b[..] == marked[..56] + BeBytes(bits, 8);
    assert b[..] == head + ([0x80] + Zeros(55 - |head|) + BeBytes(bits, 8));
  }

  /** What lies before the length once the padding bit is set. */
  lemma Marked(head: seq<byte>, marked: seq<byte>)
    requires |head| < 56 && marked == (head + Zeros(64)[|head|..])[|head| := 0x80]
    ensures marked[..56] == head + ([0x80] + Zeros(55 - |head|))
  {
    var r := head + ([0x80] + Zeros(55 - |head|));
    forall k | 0 <= k < 56 ensures marked[k] == r[k] {
      if k > |head| {
        assert marked[k] == Zeros(64)[k];
      }
    }
  }

  lemma TwoOverwrites(start: seq<byte>, time: seq<byte>, nonce: seq<byte>)
    requires |start| == 64 && |time| == 4 && |nonce| == 4
    ensures var mid := start[..4] + time + start[8..];
            mid[..12] + nonce + mid[16..] == start[..4] + time + start[8..12] + nonce + start[16..]
  {
  }

  /** A block with the static bytes of the header in place holds its tail once time and nonce are written. */
  lemma RewrittenTail(h: Header, start: seq<byte>)
    requires |start| == 64 && start[..4] == h.merkleRoot[28..] && start[8..12] == LeBytes(h.bits, 4)
    requires start[16..] == [0x80] + Zeros(39) + BeBytes(640, 8)
    ensures start[..4] + LeBytes(h.time, 4) + start[8..12] + LeBytes(h.nonce, 4) + start[16..] == TailBlock(h)
  {
  }

  class Hasher {
    const compress: Compressor
    var state0: Words8
    const block1: array<byte>
    const secondBlock: array<byte>
    ghost const header: Header

    /**
     The midstate belongs to the static part of `header`, and outside the bytes each attempt rewrites
     the buffers still hold what the constructor put there.
     */
    ghost predicate Valid()
      reads this, block1, secondBlock
    {
      && block1.Length == 64 && secondBlock.Length == 64 && block1 != secondBlock
      && state0 == compress(IV, Serialize(header)[..64])
      && block1[..4] == header.merkleRoot[28..]
      && block1[8..12] == LeBytes(header.bits, 4)
      && block1[16..] == [0x80] + Zeros(39) + BeBytes(640, 8)
      && secondBlock[32..] == DigestPadding()
    }

    /** `from_header_static`. */
    constructor (compress: Compressor, h: Header)
      ensures Valid() && fresh(block1) && fresh(secondBlock) && header == h && this.compress == compress
    {
      var bytes := Serialize(h);
      this.compress := compress;
      this.header := h;
      state0 := compress(IV, bytes[..64]);
      var first := LastBlock(bytes[64..], 640);
      var second := LastBlock(Zeros(32), 256);
      block1, secondBlock := first, second;
      new;
      SerializedTail(h);
      assert bytes[64..][..4] == h.merkleRoot[28..];
      assert bytes[64..][8..12] == LeBytes(h.bits, 4);
      assert block1[..4] == block1[..16][..4];
      assert block1[8..12] == block1[..16][8..12];
    }

    /** The big-endian words of `state` over the first half of the second block. */
    method WriteDigest(state: Words8)
      requires Valid()
      modifies secondBlock
      ensures Valid() && secondBlock[..] == WordsBe(state) + DigestPadding()
    {
      for i := 0 to 8
        invariant secondBlock[..4 * i] == WordsBe(state[..i])
        invariant secondBlock[32..] == DigestPadding()
      {
        ghost var before := secondBlock[..];
        CopyInto(secondBlock, 4 * i, WordBe(state[i]));
        assert state[..i + 1][..i] == state[..i];
        assert secondBlock[..4 * i + 4] == before[..4 * i] + WordBe(state[i]);
        assert secondBlock[32..] == before[32..];
      }
      assert state[..8] == state;
      assert secondBlock[..] == secondBlock[..32] + secondBlock[32..];
    }

    /**
     Whatever earlier calls left in the buffers, the result is the plain double SHA-256 of the header
     with this time and nonce, and the object is ready for the next call.
     */
    method HashWithNonceTime(nonce: word, time: word) returns (out: seq<byte>)
      requires Valid()
      modifies block1, secondBlock
      ensures Valid()
      ensures out == Sha256d(compress, Serialize(header.(time := time, nonce := nonce)))
    {
      ghost var h := header.(time := time, nonce := nonce);
      ghost var start := block1[..];
      CopyInto(block1, 4, LeBytes(time, 4));
      assert block1[..] == start[..4] + LeBytes(time, 4) + start[8..];
      CopyInto(block1, 12, LeBytes(nonce, 4));
      TwoOverwrites(start, LeBytes(time, 4), LeBytes(nonce, 4));
      RewrittenTail(h, start);
      assert Serialize(h)[..64] == Serialize(header)[..64];
      var state1 := compress(state0, block1[..]);
      HeaderDigest(compress, h);
      WriteDigest(state1);
      DigestDigest(compress, WordsBe(state1));
      var state2 := compress(IV, secondBlock[..]);
      out := WordsBe(state2);
    }
  }
}
