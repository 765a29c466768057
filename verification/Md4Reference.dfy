/** The MD4 message digest as sections 3.1 to 3.5 of RFC 1320 define it, over messages of bits. */
module Md4Reference {

  // ---------------------------------------------------------------- bits, bytes and words (section 2)

  /** The value of bit `j` of a byte, most significant first. */
  function BitValue(j: nat): bv8
    requires j < 8
  {
    if j == 0 then 0x80 else if j == 1 then 0x40 else if j == 2 then 0x20 else if j == 3 then 0x10
    else if j == 4 then 0x08 else if j == 5 then 0x04 else if j == 6 then 0x02 else 0x01
  }

  function BitAt(b: bv8, j: nat): bool
    requires j < 8
  {
    b & BitValue(j) != 0
  }

  function BitsOf(bytes: seq<bv8>): (r: seq<bool>)
    ensures |r| == 8 * |bytes|
    ensures forall i :: 0 <= i < |r| ==> r[i] == BitAt(bytes[i / 8], i % 8)
  {
    seq(8 * |bytes|, i requires 0 <= i < 8 * |bytes| => BitAt(bytes[i / 8], i % 8))
  }

  function Weight(bit: bool, w: bv8): bv8 { if bit then w else 0 }

  function ByteOf(bits: seq<bool>): bv8
    requires |bits| == 8
  {
    Weight(bits[0], 0x80) | Weight(bits[1], 0x40) | Weight(bits[2], 0x20) | Weight(bits[3], 0x10)
    | Weight(bits[4], 0x08) | Weight(bits[5], 0x04) | Weight(bits[6], 0x02) | Weight(bits[7], 0x01)
  }

  /** Four bytes as a word, low-order byte first. */
  function WordOf(b0: bv8, b1: bv8, b2: bv8, b3: bv8): bv32 {
    (b0 as bv32) | ((b1 as bv32) << 8) | ((b2 as bv32) << 16) | ((b3 as bv32) << 24)
  }

  function ByteIn(block: seq<bool>, i: nat): bv8
    requires |block| == 512 && i < 64
  {
    ByteOf(block[8 * i..8 * i + 8])
  }

  function WordsOf(block: seq<bool>): (r: seq<bv32>)
    requires |block| == 512
    ensures |r| == 16
  {
    seq(16, i requires 0 <= i < 16 =>
      WordOf(ByteIn(block, 4 * i), ByteIn(block, 4 * i + 1), ByteIn(block, 4 * i + 2), ByteIn(block, 4 * i + 3)))
  }

  // ---------------------------------------------------------------- padding and length (sections 3.1, 3.2)

  function Zeros(n: nat): seq<bool> { seq(n, _ => false) }

  /** Byte `i` of a 64-bit length, low-order first. */
  function Quotient(len: nat, i: nat): nat { if i == 0 then len else Quotient(len, i - 1) / 256 }

  lemma {:induction false} QuotientOfZero(i: nat)
    ensures Quotient(0, i) == 0
  {
    if i > 0 { QuotientOfZero(i - 1); }
  }

  function LengthBytes(len: nat): (r: seq<bv8>)
    ensures |r| == 8
  {
    seq(8, i requires 0 <= i < 8 => (Quotient(len, i) % 256) as bv8)
  }

  /** How many zero bits bring a message with its 1 bit to 448 modulo 512. */
  function PadLength(len: nat): nat {
    if len % 512 <= 447 then 447 - len % 512 else 959 - len % 512
  }

  function Padded(m: seq<bool>): (r: seq<bool>)
    ensures |r| % 512 == 0
  {
    m + [true] + Zeros(PadLength(|m|)) + BitsOf(LengthBytes(|m|))
  }

  // ---------------------------------------------------------------- rounds (sections 3.3, 3.4)

  datatype State = State(a: bv32, b: bv32, c: bv32, d: bv32)

  const INITIAL := State(0x67452301, 0xefcdab89, 0x98badcfe, 0x10325476)

  function F(x: bv32, y: bv32, z: bv32): bv32 { (x & y) | (!x & z) }
  function G(x: bv32, y: bv32, z: bv32): bv32 { (x & y) | (x & z) | (y & z) }
  function H(x: bv32, y: bv32, z: bv32): bv32 { x ^ y ^ z }

  /** Addition of words, modulo 2^32. */
  function Plus(x: bv32, y: bv32): bv32 { x + y }

  function Rotated(x: bv32, s: nat): bv32
    requires s < 32
  {
    x.RotateLeft(s)
  }

  /** `a := (a + f(b, c, d) + x + constant) <<< s`, with the round's function and constant. */
  function Operation(round: nat, a: bv32, b: bv32, c: bv32, d: bv32, x: bv32, s: nat): bv32
    requires s < 32
  {
    if round == 0 then Rotated(Plus(Plus(a, F(b, c, d)), x), s)
    else if round == 1 then Rotated(Plus(Plus(Plus(a, G(b, c, d)), x), 0x5a827999), s)
    else Rotated(Plus(Plus(Plus(a, H(b, c, d)), x), 0x6ed9eba1), s)
  }

  const WORD_ORDER: seq<seq<nat>> :=
    [[0, 1, 2, 3, 4, 5, 6, 7, 8, 9, 10, 11, 12, 13, 14, 15],
     [0, 4, 8, 12, 1, 5, 9, 13, 2, 6, 10, 14, 3, 7, 11, 15],
     [0, 8, 4, 12, 2, 10, 6, 14, 1, 9, 5, 13, 3, 11, 7, 15]]

  const SHIFTS: seq<seq<nat>> := [[3, 7, 11, 19], [3, 5, 9, 13], [3, 9, 11, 15]]

  /** The word of the block that step `i` uses. */
  function WordAt(x: seq<bv32>, i: nat): bv32
    requires |x| == 16 && i < 48
  {
    x[WORD_ORDER[i / 16][i % 16]]
  }

  function ShiftAt(i: nat): (s: nat)
    requires i < 48
    ensures s < 32
  {
    SHIFTS[i / 16][i % 4]
  }

  /** Step `i` of the 48: one operation, after which the registers move round by one place. */
  function Step(st: State, x: seq<bv32>, i: nat): State
    requires |x| == 16 && i < 48
  {
    State(st.d, Operation(i / 16, st.a, st.b, st.c, st.d, WordAt(x, i), ShiftAt(i)), st.b, st.c)
  }

  function Steps(st: State, x: seq<bv32>, n: nat): State
    requires |x| == 16 && n <= 48
  {
    if n == 0 then st else Step(Steps(st, x, n - 1), x, n - 1)
  }

  function Add(s: State, t: State): State { State(Plus(s.a, t.a), Plus(s.b, t.b), Plus(s.c, t.c), Plus(s.d, t.d)) }

  function Compress(st: State, x: seq<bv32>): State
    requires |x| == 16
  {
    Add(st, Steps(st, x, 48))
  }

  /** All 512-bit blocks in order. */
  function Process(bits: seq<bool>): State
    requires |bits| % 512 == 0
  {
    if bits == [] then INITIAL
    else Compress(Process(bits[..|bits| - 512]), WordsOf(bits[|bits| - 512..]))
  }

  /** Section 3.5: A, B, C, D, low-order byte of each first. */
  function Digest(m: seq<bool>): State { Process(Padded(m)) }

  function WordBytes(w: bv32): (r: seq<bv8>)
    ensures |r| == 4
  {
    [(w & 0xff) as bv8, ((w >> 8) & 0xff) as bv8, ((w >> 16) & 0xff) as bv8, ((w >> 24) & 0xff) as bv8]
  }

  function DigestBytes(st: State): seq<bv8> {
    WordBytes(st.a) + WordBytes(st.b) + WordBytes(st.c) + WordBytes(st.d)
  }

  /** Sixteen bytes that, loaded as the bytes of a block are, give the registers A, B, C, D. */
  predicate Holds(bytes: seq<bv8>, st: State) {
    && |bytes| == 16
    && WordOf(bytes[0], bytes[1], bytes[2], bytes[3]) == st.a
    && WordOf(bytes[4], bytes[5], bytes[6], bytes[7]) == st.b
    && WordOf(bytes[8], bytes[9], bytes[10], bytes[11]) == st.c
    && WordOf(bytes[12], bytes[13], bytes[14], bytes[15]) == st.d
  }

  lemma WordReadsBack(w: bv32)
    ensures var b := WordBytes(w); WordOf(b[0], b[1], b[2], b[3]) == w
  {
  }

  lemma HoldsDigest(st: State)
    ensures Holds(DigestBytes(st), st)
  {
    hide WordBytes, WordOf;
    WordReadsBack(st.a);
    WordReadsBack(st.b);
    WordReadsBack(st.c);
    WordReadsBack(st.d);
  }
}
