/** The MD4 implementation: unrolled rounds, a byte-wise carry counter, and padding built in place. */
module Md4 {
  import opened Bytes
  import opened Md4Reference

  // ---------------------------------------------------------------- the round macros

  function Rot(x: bv32, s: nat): bv32
    requires 0 < s < 32
  {
    (x << s) | (x >> (32 - s))
  }

  function MixF(x: bv32, y: bv32, z: bv32): bv32 { (x & y) | (!x & z) }
  function MixG(x: bv32, y: bv32, z: bv32): bv32 { (x & y) | (x & z) | (y & z) }
  function MixH(x: bv32, y: bv32, z: bv32): bv32 { x ^ y ^ z }

  function FF(a: bv32, b: bv32, c: bv32, d: bv32, x: bv32, s: nat): bv32
    requires 0 < s < 32
  {
    Rot(Plus(Plus(a, MixF(b, c, d)), x), s)
  }

  function GG(a: bv32, b: bv32, c: bv32, d: bv32, x: bv32, s: nat): bv32
    requires 0 < s < 32
  {
    Rot(Plus(Plus(Plus(a, MixG(b, c, d)), x), 0x5a827999), s)
  }

  function HH(a: bv32, b: bv32, c: bv32, d: bv32, x: bv32, s: nat): bv32
    requires 0 < s < 32
  {
    Rot(Plus(Plus(Plus(a, MixH(b, c, d)), x), 0x6ed9eba1), s)
  }

  predicate IsShift(s: nat) { s == 3 || s == 5 || s == 7 || s == 9 || s == 11 || s == 13 || s == 15 || s == 19 }

  lemma RotIsRotation(x: bv32, s: nat)
    requires IsShift(s)
    ensures Rot(x, s) == Rotated(x, s)
  {
    if s == 3 { assert (x << 3) | (x >> 29) == x.RotateLeft(3); }
    else if s == 5 { assert (x << 5) | (x >> 27) == x.RotateLeft(5); }
    else if s == 7 { assert (x << 7) | (x >> 25) == x.RotateLeft(7); }
    else if s == 9 { assert (x << 9) | (x >> 23) == x.RotateLeft(9); }
    else if s == 11 { assert (x << 11) | (x >> 21) == x.RotateLeft(11); }
    else if s == 13 { assert (x << 13) | (x >> 19) == x.RotateLeft(13); }
    else if s == 15 { assert (x << 15) | (x >> 17) == x.RotateLeft(15); }
    else { assert (x << 19) | (x >> 13) == x.RotateLeft(19); }
  }

  lemma SameFunctions(x: bv32, y: bv32, z: bv32)
    ensures MixF(x, y, z) == F(x, y, z) && MixG(x, y, z) == G(x, y, z) && MixH(x, y, z) == H(x, y, z)
  {
  }

  lemma FFIsOperation(a: bv32, b: bv32, c: bv32, d: bv32, x: bv32, s: nat)
    requires IsShift(s)
    ensures FF(a, b, c, d, x, s) == Operation(0, a, b, c, d, x, s)
  {
    hide Plus, Rot, Rotated, MixF, MixG, MixH, F, G, H;
    SameFunctions(b, c, d);
    RotIsRotation(Plus(Plus(a, MixF(b, c, d)), x), s);
  }

  lemma GGIsOperation(a: bv32, b: bv32, c: bv32, d: bv32, x: bv32, s: nat)
    requires IsShift(s)
    ensures GG(a, b, c, d, x, s) == Operation(1, a, b, c, d, x, s)
  {
    hide Plus, Rot, Rotated, MixF, MixG, MixH, F, G, H;
    SameFunctions(b, c, d);
    RotIsRotation(Plus(Plus(Plus(a, MixG(b, c, d)), x), 0x5a827999), s);
  }

  lemma HHIsOperation(a: bv32, b: bv32, c: bv32, d: bv32, x: bv32, s: nat)
    requires IsShift(s)
    ensures HH(a, b, c, d, x, s) == Operation(2, a, b, c, d, x, s)
  {
    hide Plus, Rot, Rotated, MixF, MixG, MixH, F, G, H;
    SameFunctions(b, c, d);
    RotIsRotation(Plus(Plus(Plus(a, MixH(b, c, d)), x), 0x6ed9eba1), s);
  }

  // ---------------------------------------------------------------- four steps bring the registers back in place

  function QuadF(s: State, w0: bv32, w1: bv32, w2: bv32, w3: bv32): State {
    var a := FF(s.a, s.b, s.c, s.d, w0, 3);
    var d := FF(s.d, a, s.b, s.c, w1, 7);
    var c := FF(s.c, d, a, s.b, w2, 11);
    State(a, FF(s.b, c, d, a, w3, 19), c, d)
  }

  function QuadG(s: State, w0: bv32, w1: bv32, w2: bv32, w3: bv32): State {
    var a := GG(s.a, s.b, s.c, s.d, w0, 3);
    var d := GG(s.d, a, s.b, s.c, w1, 5);
    var c := GG(s.c, d, a, s.b, w2, 9);
    State(a, GG(s.b, c, d, a, w3, 13), c, d)
  }

  function QuadH(s: State, w0: bv32, w1: bv32, w2: bv32, w3: bv32): State {
    var a := HH(s.a, s.b, s.c, s.d, w0, 3);
    var d := HH(s.d, a, s.b, s.c, w1, 9);
    var c := HH(s.c, d, a, s.b, w2, 11);
    State(a, HH(s.b, c, d, a, w3, 15), c, d)
  }

  lemma UnrollFour(st: State, x: seq<bv32>, n: nat)
    requires |x| == 16 && n + 4 <= 48
    ensures Steps(st, x, n + 4) == Step(Step(Step(Step(Steps(st, x, n), x, n), x, n + 1), x, n + 2), x, n + 3)
  {
    hide Step;
    assert Steps(st, x, n + 1) == Step(Steps(st, x, n), x, n);
    assert Steps(st, x, n + 2) == Step(Steps(st, x, n + 1), x, n + 1);
    assert Steps(st, x, n + 3) == Step(Steps(st, x, n + 2), x, n + 2);
  }

  lemma ShiftsF(n: nat)
    requires 0 <= n < 16 && n % 4 == 0
    ensures ShiftAt(n) == 3 && ShiftAt(n + 1) == 7 && ShiftAt(n + 2) == 11 && ShiftAt(n + 3) == 19
    ensures n / 16 == (n + 1) / 16 == (n + 2) / 16 == (n + 3) / 16 == 0
  {
  }

  lemma FourStepsF(s: State, x: seq<bv32>, n: nat)
    requires |x| == 16 && 0 <= n < 16 && n % 4 == 0
    ensures Step(Step(Step(Step(s, x, n), x, n + 1), x, n + 2), x, n + 3)
         == QuadF(s, WordAt(x, n), WordAt(x, n + 1), WordAt(x, n + 2), WordAt(x, n + 3))
  {
    hide FF, Operation, WordAt, ShiftAt;
    ShiftsF(n);
    var w0, w1, w2, w3 := WordAt(x, n), WordAt(x, n + 1), WordAt(x, n + 2), WordAt(x, n + 3);
    FFIsOperation(s.a, s.b, s.c, s.d, w0, 3);
    var a := FF(s.a, s.b, s.c, s.d, w0, 3);
    assert Step(s, x, n) == State(s.d, a, s.b, s.c);
    FFIsOperation(s.d, a, s.b, s.c, w1, 7);
    var d := FF(s.d, a, s.b, s.c, w1, 7);
    assert Step(State(s.d, a, s.b, s.c), x, n + 1) == State(s.c, d, a, s.b);
    FFIsOperation(s.c, d, a, s.b, w2, 11);
    var c := FF(s.c, d, a, s.b, w2, 11);
    assert Step(State(s.c, d, a, s.b), x, n + 2) == State(s.b, c, d, a);
    FFIsOperation(s.b, c, d, a, w3, 19);
  }

  lemma ShiftsG(n: nat)
    requires 16 <= n < 32 && n % 4 == 0
    ensures ShiftAt(n) == 3 && ShiftAt(n + 1) == 5 && ShiftAt(n + 2) == 9 && ShiftAt(n + 3) == 13
    ensures n / 16 == (n + 1) / 16 == (n + 2) / 16 == (n + 3) / 16 == 1
  {
  }

  lemma FourStepsG(s: State, x: seq<bv32>, n: nat)
    requires |x| == 16 && 16 <= n < 32 && n % 4 == 0
    ensures Step(Step(Step(Step(s, x, n), x, n + 1), x, n + 2), x, n + 3)
         == QuadG(s, WordAt(x, n), WordAt(x, n + 1), WordAt(x, n + 2), WordAt(x, n + 3))
  {
    hide GG, Operation, WordAt, ShiftAt;
    ShiftsG(n);
    var w0, w1, w2, w3 := WordAt(x, n), WordAt(x, n + 1), WordAt(x, n + 2), WordAt(x, n + 3);
    GGIsOperation(s.a, s.b, s.c, s.d, w0, 3);
    var a := GG(s.a, s.b, s.c, s.d, w0, 3);
    assert Step(s, x, n) == State(s.d, a, s.b, s.c);
    GGIsOperation(s.d, a, s.b, s.c, w1, 5);
    var d := GG(s.d, a, s.b, s.c, w1, 5);
    assert Step(State(s.d, a, s.b, s.c), x, n + 1) == State(s.c, d, a, s.b);
    GGIsOperation(s.c, d, a, s.b, w2, 9);
    var c := GG(s.c, d, a, s.b, w2, 9);
    assert Step(State(s.c, d, a, s.b), x, n + 2) == State(s.b, c, d, a);
    GGIsOperation(s.b, c, d, a, w3, 13);
  }

  lemma ShiftsH(n: nat)
    requires 32 <= n < 48 && n % 4 == 0
    ensures ShiftAt(n) == 3 && ShiftAt(n + 1) == 9 && ShiftAt(n + 2) == 11 && ShiftAt(n + 3) == 15
    ensures n / 16 == (n + 1) / 16 == (n + 2) / 16 == (n + 3) / 16 == 2
  {
  }

  lemma FourStepsH(s: State, x: seq<bv32>, n: nat)
    requires |x| == 16 && 32 <= n < 48 && n % 4 == 0
    ensures Step(Step(Step(Step(s, x, n), x, n + 1), x, n + 2), x, n + 3)
         == QuadH(s, WordAt(x, n), WordAt(x, n + 1), WordAt(x, n + 2), WordAt(x, n + 3))
  {
    hide HH, Operation, WordAt, ShiftAt;
    ShiftsH(n);
    var w0, w1, w2, w3 := WordAt(x, n), WordAt(x, n + 1), WordAt(x, n + 2), WordAt(x, n + 3);
    HHIsOperation(s.a, s.b, s.c, s.d, w0, 3);
    var a := HH(s.a, s.b, s.c, s.d, w0, 3);
    assert Step(s, x, n) == State(s.d, a, s.b, s.c);
    HHIsOperation(s.d, a, s.b, s.c, w1, 9);
    var d := HH(s.d, a, s.b, s.c, w1, 9);
    assert Step(State(s.d, a, s.b, s.c), x, n + 1) == State(s.c, d, a, s.b);
    HHIsOperation(s.c, d, a, s.b, w2, 11);
    var c := HH(s.c, d, a, s.b, w2, 11);
    assert Step(State(s.c, d, a, s.b), x, n + 2) == State(s.b, c, d, a);
    HHIsOperation(s.b, c, d, a, w3, 15);
  }

  // ---------------------------------------------------------------- the unrolled rounds

  /** Four assignments of round 1: to A, D, C and B in turn. */
  method FourF(s: State, w0: bv32, w1: bv32, w2: bv32, w3: bv32) returns (r: State)
    ensures r == QuadF(s, w0, w1, w2, w3)
  {
    hide FF;
    var A, B, C, D := s.a, s.b, s.c, s.d;
    A := FF(A, B, C, D, w0, 3);
    D := FF(D, A, B, C, w1, 7);
    C := FF(C, D, A, B, w2, 11);
    B := FF(B, C, D, A, w3, 19);
    r := State(A, B, C, D);
  }

  /** Four assignments of round 2: to A, D, C and B in turn. */
  method FourG(s: State, w0: bv32, w1: bv32, w2: bv32, w3: bv32) returns (r: State)
    ensures r == QuadG(s, w0, w1, w2, w3)
  {
    hide GG;
    var A, B, C, D := s.a, s.b, s.c, s.d;
    A := GG(A, B, C, D, w0, 3);
    D := GG(D, A, B, C, w1, 5);
    C := GG(C, D, A, B, w2, 9);
    B := GG(B, C, D, A, w3, 13);
    r := State(A, B, C, D);
  }

  /** Four assignments of round 3: to A, D, C and B in turn. */
  method FourH(s: State, w0: bv32, w1: bv32, w2: bv32, w3: bv32) returns (r: State)
    ensures r == QuadH(s, w0, w1, w2, w3)
  {
    hide HH;
    var A, B, C, D := s.a, s.b, s.c, s.d;
    A := HH(A, B, C, D, w0, 3);
    D := HH(D, A, B, C, w1, 9);
    C := HH(C, D, A, B, w2, 11);
    B := HH(B, C, D, A, w3, 15);
    r := State(A, B, C, D);
  }

  lemma WordsF(x: seq<bv32>)
    requires |x| == 16
    ensures WordAt(x, 0) == x[0] && WordAt(x, 1) == x[1] && WordAt(x, 2) == x[2] && WordAt(x, 3) == x[3]
    ensures WordAt(x, 4) == x[4] && WordAt(x, 5) == x[5] && WordAt(x, 6) == x[6] && WordAt(x, 7) == x[7]
    ensures WordAt(x, 8) == x[8] && WordAt(x, 9) == x[9] && WordAt(x, 10) == x[10] && WordAt(x, 11) == x[11]
    ensures WordAt(x, 12) == x[12] && WordAt(x, 13) == x[13] && WordAt(x, 14) == x[14] && WordAt(x, 15) == x[15]
  {
  }

  lemma QuadsF(st: State, x: seq<bv32>)
    requires |x| == 16
    ensures Steps(st, x, 4) == QuadF(Steps(st, x, 0), x[0], x[1], x[2], x[3])
    ensures Steps(st, x, 8) == QuadF(Steps(st, x, 4), x[4], x[5], x[6], x[7])
    ensures Steps(st, x, 12) == QuadF(Steps(st, x, 8), x[8], x[9], x[10], x[11])
    ensures Steps(st, x, 16) == QuadF(Steps(st, x, 12), x[12], x[13], x[14], x[15])
  {
    hide Steps, Step, QuadF, WordAt;
    WordsF(x);
    UnrollFour(st, x, 0);
    FourStepsF(Steps(st, x, 0), x, 0);
    UnrollFour(st, x, 4);
    FourStepsF(Steps(st, x, 4), x, 4);
    UnrollFour(st, x, 8);
    FourStepsF(Steps(st, x, 8), x, 8);
    UnrollFour(st, x, 12);
    FourStepsF(Steps(st, x, 12), x, 12);
  }

  lemma WordsG(x: seq<bv32>)
    requires |x| == 16
    ensures WordAt(x, 16) == x[0] && WordAt(x, 17) == x[4] && WordAt(x, 18) == x[8] && WordAt(x, 19) == x[12]
    ensures WordAt(x, 20) == x[1] && WordAt(x, 21) == x[5] && WordAt(x, 22) == x[9] && WordAt(x, 23) == x[13]
    ensures WordAt(x, 24) == x[2] && WordAt(x, 25) == x[6] && WordAt(x, 26) == x[10] && WordAt(x, 27) == x[14]
    ensures WordAt(x, 28) == x[3] && WordAt(x, 29) == x[7] && WordAt(x, 30) == x[11] && WordAt(x, 31) == x[15]
  {
  }

  lemma QuadsG(st: State, x: seq<bv32>)
    requires |x| == 16
    ensures Steps(st, x, 20) == QuadG(Steps(st, x, 16), x[0], x[4], x[8], x[12])
    ensures Steps(st, x, 24) == QuadG(Steps(st, x, 20), x[1], x[5], x[9], x[13])
    ensures Steps(st, x, 28) == QuadG(Steps(st, x, 24), x[2], x[6], x[10], x[14])
    ensures Steps(st, x, 32) == QuadG(Steps(st, x, 28), x[3], x[7], x[11], x[15])
  {
    hide Steps, Step, QuadG, WordAt;
    WordsG(x);
    UnrollFour(st, x, 16);
    FourStepsG(Steps(st, x, 16), x, 16);
    UnrollFour(st, x, 20);
    FourStepsG(Steps(st, x, 20), x, 20);
    UnrollFour(st, x, 24);
    FourStepsG(Steps(st, x, 24), x, 24);
    UnrollFour(st, x, 28);
    FourStepsG(Steps(st, x, 28), x, 28);
  }

  lemma WordsH(x: seq<bv32>)
    requires |x| == 16
    ensures WordAt(x, 32) == x[0] && WordAt(x, 33) == x[8] && WordAt(x, 34) == x[4] && WordAt(x, 35) == x[12]
    ensures WordAt(x, 36) == x[2] && WordAt(x, 37) == x[10] && WordAt(x, 38) == x[6] && WordAt(x, 39) == x[14]
    ensures WordAt(x, 40) == x[1] && WordAt(x, 41) == x[9] && WordAt(x, 42) == x[5] && WordAt(x, 43) == x[13]
    ensures WordAt(x, 44) == x[3] && WordAt(x, 45) == x[11] && WordAt(x, 46) == x[7] && WordAt(x, 47) == x[15]
  {
  }

  lemma QuadsH(st: State, x: seq<bv32>)
    requires |x| == 16
    ensures Steps(st, x, 36) == QuadH(Steps(st, x, 32), x[0], x[8], x[4], x[12])
    ensures Steps(st, x, 40) == QuadH(Steps(st, x, 36), x[2], x[10], x[6], x[14])
    ensures Steps(st, x, 44) == QuadH(Steps(st, x, 40), x[1], x[9], x[5], x[13])
    ensures Steps(st, x, 48) == QuadH(Steps(st, x, 44), x[3], x[11], x[7], x[15])
  {
    hide Steps, Step, QuadH, WordAt;
    WordsH(x);
    UnrollFour(st, x, 32);
    FourStepsH(Steps(st, x, 32), x, 32);
    UnrollFour(st, x, 36);
    FourStepsH(Steps(st, x, 36), x, 36);
    UnrollFour(st, x, 40);
    FourStepsH(Steps(st, x, 40), x, 40);
    UnrollFour(st, x, 44);
    FourStepsH(Steps(st, x, 44), x, 44);
  }

  /** The 48 assignments: exactly the reference's 48 steps. */
  method Rounds(st: State, x: seq<bv32>) returns (r: State)
    requires |x| == 16
    ensures r == Steps(st, x, 48)
  {
    assert Steps(st, x, 0) == st;
    hide Steps, QuadF, QuadG, QuadH;
    QuadsF(st, x);
    r := FourF(st, x[0], x[1], x[2], x[3]);
    r := FourF(r, x[4], x[5], x[6], x[7]);
    r := FourF(r, x[8], x[9], x[10], x[11]);
    r := FourF(r, x[12], x[13], x[14], x[15]);
    QuadsG(st, x);
    r := FourG(r, x[0], x[4], x[8], x[12]);
    r := FourG(r, x[1], x[5], x[9], x[13]);
    r := FourG(r, x[2], x[6], x[10], x[14]);
    r := FourG(r, x[3], x[7], x[11], x[15]);
    QuadsH(st, x);
    r := FourH(r, x[0], x[8], x[4], x[12]);
    r := FourH(r, x[2], x[10], x[6], x[14]);
    r := FourH(r, x[1], x[9], x[5], x[13]);
    r := FourH(r, x[3], x[11], x[7], x[15]);
  }

  // ---------------------------------------------------------------- loading a block

  /** Four bytes of the block, added up as the loading loop does. */
  function Load(xb: seq<bv8>, i: nat): bv32
    requires i + 4 <= |xb|
  {
    LoadBytes(xb[i], xb[i + 1], xb[i + 2], xb[i + 3])
  }

  function LoadBytes(b0: bv8, b1: bv8, b2: bv8, b3: bv8): bv32 {
    (b0 as bv32) + ((b1 as bv32) << 8) + ((b2 as bv32) << 16) + ((b3 as bv32) << 24)
  }

  lemma LoadIsWord(b0: bv8, b1: bv8, b2: bv8, b3: bv8)
    ensures LoadBytes(b0, b1, b2, b3) == WordOf(b0, b1, b2, b3)
  {
  }

  /** A byte is made of its own bits. */
  lemma ByteOfItsBits(b: bv8)
    ensures ByteOf([BitAt(b, 0), BitAt(b, 1), BitAt(b, 2), BitAt(b, 3),
                    BitAt(b, 4), BitAt(b, 5), BitAt(b, 6), BitAt(b, 7)]) == b
  {
  }

  lemma ByteInBits(xb: seq<bv8>, i: nat)
    requires |xb| == 64 && i < 64
    ensures ByteIn(BitsOf(xb), i) == xb[i]
  {
    hide BitAt, ByteOf, BitsOf;
    var b, part := xb[i], BitsOf(xb)[8 * i..8 * i + 8];
    forall j: nat | j < 8 ensures part[j] == BitAt(b, j) { BitInByte(xb, i, j); }
    EightBits(part, b);
  }

  lemma BitInByte(xb: seq<bv8>, i: nat, j: nat)
    requires i < |xb| && j < 8
    ensures BitsOf(xb)[8 * i + j] == BitAt(xb[i], j)
  {
    hide BitAt;
    assert (8 * i + j) / 8 == i && (8 * i + j) % 8 == j;
  }

  lemma EightBits(part: seq<bool>, b: bv8)
    requires |part| == 8 && forall j: nat :: j < 8 ==> part[j] == BitAt(b, j)
    ensures ByteOf(part) == b
  {
    hide BitAt, ByteOf;
    assert part
        == [BitAt(b, 0), BitAt(b, 1), BitAt(b, 2), BitAt(b, 3), BitAt(b, 4), BitAt(b, 5), BitAt(b, 6), BitAt(b, 7)];
    ByteOfItsBits(b);
  }

  lemma WordInBits(xb: seq<bv8>, i: nat)
    requires |xb| == 64 && i < 16
    ensures Load(xb, 4 * i) == WordsOf(BitsOf(xb))[i]
  {
    hide WordOf, LoadBytes, ByteIn, BitsOf;
    ByteInBits(xb, 4 * i);
    ByteInBits(xb, 4 * i + 1);
    ByteInBits(xb, 4 * i + 2);
    ByteInBits(xb, 4 * i + 3);
    LoadIsWord(xb[4 * i], xb[4 * i + 1], xb[4 * i + 2], xb[4 * i + 3]);
  }

  method LoadBlock(xb: seq<bv8>) returns (x: seq<bv32>)
    requires |xb| == 64
    ensures x == WordsOf(BitsOf(xb))
  {
    hide Load, WordsOf;
    x := [];
    for i := 0 to 16
      invariant |x| == i && forall k :: 0 <= k < i ==> x[k] == WordsOf(BitsOf(xb))[k]
    {
      WordInBits(xb, i);
      x := x + [Load(xb, 4 * i)];
    }
  }

  // ---------------------------------------------------------------- the bit counter

  predicate CountIs(count: seq<byte>, len: nat) {
    |count| == 8 && forall i :: 0 <= i < 8 ==> count[i] == Quotient(len, i) % 256
  }

  lemma {:induction false} QuotientSmall(len: nat, i: nat)
    ensures Quotient(len, i + 1) == Quotient(len, i) / 256
    ensures i == 8 && len < 0x1_0000_0000_0000_0000 ==> Quotient(len, 8) == 0
  {
    assert Quotient(len, 1) == len / 256;
    assert Quotient(len, 2) == Quotient(len, 1) / 256;
    assert Quotient(len, 3) == Quotient(len, 2) / 256;
    assert Quotient(len, 4) == Quotient(len, 3) / 256;
    assert Quotient(len, 5) == Quotient(len, 4) / 256;
    assert Quotient(len, 6) == Quotient(len, 5) / 256;
    assert Quotient(len, 7) == Quotient(len, 6) / 256;
    assert Quotient(len, 8) == Quotient(len, 7) / 256;
  }

  const UINT := 0x1_0000_0000

  /** What adding `n` makes of the count: the 32-bit sum of `n` and the lowest byte may wrap. */
  function Counted(len: nat, n: nat): (r: nat)
    requires n < UINT
    ensures n + 256 <= UINT ==> r == len + n
  {
    if n + len % 256 < UINT then len + n else len + n - UINT
  }

  lemma CarryStep(l: nat, m: nat, tmp: int)
    requires tmp + l == m && 0 <= tmp + l % 256
    ensures (tmp + l % 256) % 256 == m % 256
    ensures (tmp + l % 256) / 256 + l / 256 == m / 256
  {
    assert tmp + l % 256 == m - 256 * (l / 256);
  }

  /** The first `p` bytes already count `total`, the others still `len`. */
  predicate Carried(count: seq<byte>, len: nat, total: nat, p: nat) {
    && p <= 8 && |count| == 8
    && (forall i :: 0 <= i < p ==> count[i] == Quotient(total, i) % 256)
    && (forall i :: p <= i < 8 ==> count[i] == Quotient(len, i) % 256)
  }

  lemma CarriedStep(count: seq<byte>, len: nat, total: nat, p: nat, tmp: int)
    requires Carried(count, len, total, p) && p < 8 && tmp + Quotient(len, p) == Quotient(total, p)
    requires 0 <= tmp + count[p]
    ensures Carried(count[p := (tmp + count[p]) % 256], len, total, p + 1)
    ensures (tmp + count[p]) / 256 + Quotient(len, p + 1) == Quotient(total, p + 1)
  {
    CarryStep(Quotient(len, p), Quotient(total, p), tmp);
  }

  /** `p` bytes are done and `tmp` is still to be carried; at first it is all of `n`. */
  predicate Carrying(count: seq<byte>, len: nat, n: nat, p: nat, tmp: nat)
    requires n < UINT
  {
    && Carried(count, len, Counted(len, n), p)
    && if p == 0 then tmp == n
       else tmp + Quotient(len, p) == Quotient(Counted(len, n), p) && tmp <= UINT - 256
  }

  lemma CarryOn(count: seq<byte>, len: nat, n: nat, p: nat, tmp: nat)
    requires n < UINT && len + n < 0x1_0000_0000_0000_0000 && Carrying(count, len, n, p, tmp) && tmp > 0
    ensures p < 8
    ensures var sum := (tmp + count[p]) % UINT; Carrying(count[p := sum % 256], len, n, p + 1, sum / 256)
  {
    var total := Counted(len, n);
    var t: int := if p == 0 then total - len else tmp;   // what is added, and then carried, in effect
    FirstByte(count, len, total);
    hide Quotient, Carried;
    NotBeyond(total, len, p, t);
    assert (tmp + count[p]) % UINT == t + count[p];
    CarriedStep(count, len, total, p, t);
  }

  lemma FirstByte(count: seq<byte>, len: nat, total: nat)
    ensures Quotient(len, 0) == len && Quotient(total, 0) == total
    ensures Carried(count, len, total, 0) ==> |count| == 8 && count[0] == len % 256
  {
  }

  /** Adds to the little-endian byte counter in 32-bit arithmetic, carrying only as far as needed. */
  method AddCount(count: array<byte>, n: nat, ghost len: nat)
    requires CountIs(count[..], len) && n < UINT && len + n < 0x1_0000_0000_0000_0000
    modifies count
    ensures CountIs(count[..], Counted(len, n))
  {
    assert Carrying(count[..], len, n, 0, n) && count.Length == 8;
    hide Carrying, CountIs;
    var tmp, p := n, 0;
    while tmp > 0
      invariant 0 <= p && count.Length == 8 && 0 <= tmp
      invariant Carrying(count[..], len, n, p, tmp)
      decreases 8 - p
    {
      ghost var c := count[..];
      CarryOn(c, len, n, p, tmp);
      tmp := (tmp + count[p]) % UINT;
      count[p] := tmp % 256;
      tmp := tmp / 256;
      assert count[..] == c[p := count[p]];
      p := p + 1;
    }
    CarryEnds(count[..], len, n, p);
  }

  lemma CarryEnds(count: seq<byte>, len: nat, n: nat, p: nat)
    requires n < UINT && Carrying(count, len, n, p, 0)
    ensures CountIs(count, Counted(len, n))
  {
    hide Carried, CountIs;
    CarrySettled(count, len, Counted(len, n), p);
  }

  /** Nothing is carried out of the last byte. */
  lemma NotBeyond(total: nat, len: nat, p: nat, t: int)
    requires p <= 8 && t + Quotient(len, p) == Quotient(total, p) && (p > 0 ==> t > 0)
    requires total < 0x1_0000_0000_0000_0000
    ensures p < 8
  {
    QuotientSmall(total, 8);
  }

  lemma CarrySettled(count: seq<byte>, len: nat, total: nat, p: nat)
    requires Carried(count, len, total, p) && Quotient(len, p) == Quotient(total, p)
    ensures CountIs(count, total)
  {
    forall i | p <= i < 8 ensures Quotient(len, i) == Quotient(total, i) { SameQuotients(len, total, p, i); }
  }

  lemma {:induction false} SameQuotients(a: nat, b: nat, p: nat, i: nat)
    requires p <= i && Quotient(a, p) == Quotient(b, p)
    ensures Quotient(a, i) == Quotient(b, i)
    decreases i
  {
    if i > p { SameQuotients(a, b, p, i - 1); }
  }

  // ---------------------------------------------------------------- the last byte

  /** `(x | mask) & ~(mask - 1)` with `mask = 1 << (7 - bit)`: keeps the first bits, sets the next, clears the rest. */
  function Marked(x: bv8, bit: nat): bv8
    requires bit < 8
  {
    var mask: bv8 := 1 << (7 - bit);
    (x | mask) & !(mask - 1)
  }

  predicate Power(m: bv8) {
    m == 0x80 || m == 0x40 || m == 0x20 || m == 0x10 || m == 0x08 || m == 0x04 || m == 0x02 || m == 0x01
  }

  lemma MaskLogic(x: bv8, m: bv8, n: bv8)
    requires Power(m) && Power(n)
    ensures ((x | m) & !(m - 1)) & n == if n > m then x & n else if n == m then n else 0
  {
  }

  lemma MaskValue(bit: nat)
    requires bit < 8
    ensures (1 as bv8) << (7 - bit) == BitValue(bit)
  {
    if bit == 0 { assert (1 as bv8) << 7 == 0x80; }
    else if bit == 1 { assert (1 as bv8) << 6 == 0x40; }
    else if bit == 2 { assert (1 as bv8) << 5 == 0x20; }
    else if bit == 3 { assert (1 as bv8) << 4 == 0x10; }
    else if bit == 4 { assert (1 as bv8) << 3 == 0x08; }
    else if bit == 5 { assert (1 as bv8) << 2 == 0x04; }
    else if bit == 6 { assert (1 as bv8) << 1 == 0x02; }
    else { assert (1 as bv8) << 0 == 0x01; }
  }

  lemma MarkedBits(x: bv8, bit: nat, j: nat)
    requires bit < 8 && j < 8
    ensures BitAt(Marked(x, bit), j) == if j < bit then BitAt(x, j) else j == bit
  {
    MaskValue(bit);
    MaskLogic(x, BitValue(bit), BitValue(j));
  }

  // ---------------------------------------------------------------- padding

  /** The last bytes of the message with the 1 bit and zeros behind them. */
  ghost predicate IsTail(xx: seq<bv8>, x: seq<bv8>, n: nat) {
    && n < 512 && n / 8 < |x| && |xx| == 64
    && (forall i :: 0 <= i < n / 8 ==> xx[i] == x[i])
    && xx[n / 8] == Marked(x[n / 8], n % 8)
    && (forall i :: n / 8 < i < 64 ==> xx[i] == 0)
  }

  lemma BitsConcat(a: seq<bv8>, b: seq<bv8>)
    ensures BitsOf(a + b) == BitsOf(a) + BitsOf(b)
  {
    hide BitAt;
    var l, r := BitsOf(a + b), BitsOf(a) + BitsOf(b);
    forall i | 0 <= i < |l| ensures l[i] == r[i] {
      if i >= 8 * |a| {
        assert (i - 8 * |a|) / 8 == i / 8 - |a| && (i - 8 * |a|) % 8 == i % 8;
      }
    }
  }

  lemma ZeroBit(j: nat)
    requires j < 8
    ensures !BitAt(0, j)
  {
  }

  lemma TailBits(xx: seq<bv8>, x: seq<bv8>, n: nat)
    requires IsTail(xx, x, n)
    ensures n <= 8 * |x| && n < 512 && |xx| == 64
    ensures BitsOf(xx) == BitsOf(x)[..n] + [true] + Zeros(511 - n)
  {
    hide BitAt, Marked;
    var l, r := BitsOf(xx), BitsOf(x)[..n] + [true] + Zeros(511 - n);
    forall i | 0 <= i < 512 ensures l[i] == r[i] {
      TailBit(xx, x, n, i);
    }
  }

  lemma TailBit(xx: seq<bv8>, x: seq<bv8>, n: nat, i: nat)
    requires IsTail(xx, x, n) && i < 512
    ensures i < n ==> i / 8 < |x| && BitAt(xx[i / 8], i % 8) == BitAt(x[i / 8], i % 8)
    ensures i >= n ==> BitAt(xx[i / 8], i % 8) == (i == n)
  {
    hide BitAt, Marked;
    if i / 8 == n / 8 {
      MarkedBits(x[n / 8], n % 8, i % 8);
    } else if i / 8 > n / 8 {
      ZeroBit(i % 8);
    }
  }

  lemma ZeroBytes(k: nat, z: seq<bv8>)
    requires |z| == k && forall i :: 0 <= i < k ==> z[i] == 0
    ensures BitsOf(z) == Zeros(8 * k)
  {
    hide BitAt;
    forall i | 0 <= i < 8 * k ensures BitsOf(z)[i] == false { ZeroBit(i % 8); }
  }

  /** Room for the length: the tail and the length make one block. */
  lemma PadsInOne(m0: seq<bool>, x: seq<bv8>, n: nat, xx: seq<bv8>)
    requires |m0| % 512 == 0 && IsTail(xx, x, n) && n / 8 <= 55
    ensures var m := m0 + BitsOf(x)[..n];
      Padded(m) == m0 + BitsOf(xx[..56] + LengthBytes(|m|))
  {
    hide BitsOf, LengthBytes, IsTail;
    TailBits(xx, x, n);
    var m := m0 + BitsOf(x)[..n];
    var len := LengthBytes(|m|);
    assert |m| % 512 == n;
    BitsConcat(xx[..56], xx[56..]);
    assert xx == xx[..56] + xx[56..];
    BitsConcat(xx[..56], len);
    assert BitsOf(xx)[..448] == BitsOf(xx[..56]);
    assert BitsOf(xx)[..448] == BitsOf(x)[..n] + [true] + Zeros(447 - n);
  }

  /** No room: the tail is a block of its own, and zeros and the length make another. */
  lemma PadsInTwo(m0: seq<bool>, x: seq<bv8>, n: nat, xx: seq<bv8>, z: seq<bv8>)
    requires |m0| % 512 == 0 && IsTail(xx, x, n) && n / 8 > 55
    requires |z| == 56 && forall i :: 0 <= i < 56 ==> z[i] == 0
    ensures var m := m0 + BitsOf(x)[..n];
      Padded(m) == m0 + BitsOf(xx) + BitsOf(z + LengthBytes(|m|))
  {
    hide BitsOf, LengthBytes, IsTail;
    TailBits(xx, x, n);
    var m := m0 + BitsOf(x)[..n];
    var len := LengthBytes(|m|);
    assert |m| % 512 == n;
    BitsConcat(z, len);
    ZeroBytes(56, z);
    assert Zeros(511 - n) + Zeros(448) == Zeros(959 - n);
  }

  // ---------------------------------------------------------------- the context

  lemma ProcessAppend(m: seq<bool>, block: seq<bool>)
    requires |m| % 512 == 0 && |block| == 512
    ensures Process(m + block) == Compress(Process(m), WordsOf(block))
  {
    hide Compress, WordsOf;
    assert (m + block)[..|m|] == m && (m + block)[|m|..] == block;
  }

  const LIMIT := 0x1_0000_0000_0000_0000

  class Context {
    const buffer: array<bv32>
    const count: array<byte>
    var done: bool
    ghost var message: seq<bool>   // the bits digested so far

    function St(): State
      requires buffer.Length == 4
      reads this, buffer
    {
      State(buffer[0], buffer[1], buffer[2], buffer[3])
    }

    predicate Apart() { buffer as object != count as object }

    /** The counter is the message's length, and the buffer its blocks so far, or its digest. */
    ghost predicate Valid()
      reads this, buffer, count
    {
      && buffer.Length == 4 && Apart() && CountIs(count[..], |message|) && |message| < LIMIT
      && (!done ==> |message| % 512 == 0 && St() == Process(message))
      && (done ==> St() == Digest(message))
    }

    constructor ()
      ensures Valid() && message == [] && !done && fresh(buffer) && fresh(count)
    {
      buffer := new bv32[4];
      count := new byte[8];
      done, message := false, [];
      new;
      buffer[0], buffer[1], buffer[2], buffer[3] := 0x67452301, 0xefcdab89, 0x98badcfe, 0x10325476;
      for i := 0 to 8
        invariant forall k :: 0 <= k < i ==> count[k] == 0
        invariant buffer[0] == 0x67452301 && buffer[1] == 0xefcdab89
        invariant buffer[2] == 0x98badcfe && buffer[3] == 0x10325476
        invariant !done && message == []
      {
        count[i] := 0;
      }
      forall i | 0 <= i < 8 ensures Quotient(0, i) == 0 { QuotientOfZero(i); }
    }

    /** Mixes one block of bytes into the buffer. */
    method Block(xb: seq<bv8>)
      requires |xb| == 64 && buffer.Length == 4
      modifies buffer
      ensures St() == Compress(old(St()), WordsOf(BitsOf(xb)))
    {
      hide WordsOf, BitsOf, Steps, Plus;
      var st := St();
      var x := LoadBlock(xb);
      var r := Rounds(st, x);
      buffer[0] := Plus(buffer[0], r.a);
      buffer[1] := Plus(buffer[1], r.b);
      buffer[2] := Plus(buffer[2], r.c);
      buffer[3] := Plus(buffer[3], r.d);
    }

    /** Copies the message's last bytes and puts the 1 bit and zeros behind them. */
    method Tail(x: seq<bv8>, n: nat) returns (xx: array<bv8>)
      requires n < 512 && n / 8 < |x|
      ensures fresh(xx) && IsTail(xx[..], x, n)
    {
      hide Marked;
      xx := new bv8[64];
      var byte, bit := n / 8, n % 8;
      for i := 0 to byte + 1
        invariant forall k :: 0 <= k < i ==> xx[k] == x[k]
      {
        xx[i] := x[i];
      }
      for i := byte + 1 to 64
        invariant forall k :: 0 <= k <= byte ==> xx[k] == x[k]
        invariant forall k :: byte < k < i ==> xx[k] == 0
      {
        xx[i] := 0;
      }
      xx[byte] := Marked(xx[byte], bit);
    }

    /** Writes the counter behind the first 56 bytes of a block. */
    method PutCount(xx: array<bv8>, ghost len: nat)
      requires xx.Length == 64 && CountIs(count[..], len)
      modifies xx
      ensures xx[..] == old(xx[..56]) + LengthBytes(len)
    {
      hide Quotient;
      for i := 0 to 8
        invariant xx[..56] == old(xx[..56])
        invariant forall k :: 0 <= k < i ==> xx[56 + k] == LengthBytes(len)[k]
      {
        xx[56 + i] := count[i] as bv8;
      }
      assert xx[..] == xx[..56] + xx[56..];
      assert xx[56..] == LengthBytes(len);
    }

    /** Ends the computation with `n < 512` more bits: one block if the length fits behind them, else two. */
    method Finish(x: seq<bv8>, n: nat)
      requires n < 512 && n / 8 < |x| && buffer.Length == 4 && Apart()
      requires |message| % 512 == 0 && St() == Process(message) && CountIs(count[..], |message| + n)
      modifies buffer
      ensures St() == Digest(message + BitsOf(x)[..n])
    {
      hide IsTail, CountIs, Process, Compress, WordsOf, BitsOf, LengthBytes;
      ghost var len := |message| + n;
      var xx := Tail(x, n);
      ghost var tail := xx[..];
      TailBits(tail, x, n);
      if n / 8 <= 55 {
        PutCount(xx, len);
        Block(xx[..]);
        PadsInOne(message, x, n, tail);
        ProcessAppend(message, BitsOf(tail[..56] + LengthBytes(len)));
      } else {
        Block(xx[..]);
        ProcessAppend(message, BitsOf(tail));
        for i := 0 to 56
          invariant forall k :: 0 <= k < i ==> xx[k] == 0
          invariant St() == Process(message + BitsOf(tail)) && CountIs(count[..], len)
        {
          xx[i] := 0;
        }
        ghost var z := xx[..56];
        PutCount(xx, len);
        Block(xx[..]);
        PadsInTwo(message, x, n, tail, z);
        ProcessAppend(message + BitsOf(tail), BitsOf(z + LengthBytes(len)));
      }
    }

    /**
     Digests `n` more bits of `x`. 512 bits are a full block; fewer end the computation, and the buffer is then
     the digest of all bits given. More than 512 are an error, reported only after they have been counted.
     The byte behind the last full one is read even when no bit of it is used.
     */
    method Update(x: seq<bv8>, n: nat) returns (ok: bool)
      requires Valid() && n < UINT && |message| + n < LIMIT
      requires !done && n == 512 ==> |x| >= 64
      requires !done && n < 512 ==> n / 8 < |x|
      modifies this, buffer, count
      ensures old(done) ==> ok == (n == 0) && Valid() && message == old(message) && done
      ensures !old(done) && n == 512 ==> ok && Valid() && !done && message == old(message) + BitsOf(x[..64])
      ensures !old(done) && n < 512 ==> ok && Valid() && done && message == old(message) + BitsOf(x)[..n]
      ensures !old(done) && n > 512 ==>
        !ok && !done && message == old(message) && St() == Process(message) && CountIs(count[..], Counted(|message|, n))
    {
      hide CountIs, Process, Compress, WordsOf, BitsOf, LengthBytes, Digest;
      if n == 0 && done { return true; }
      if done { return false; }
      AddCount(count, n, |message|);
      if n == 512 {
        Block(x[..64]);
        ProcessAppend(message, BitsOf(x[..64]));
        message := message + BitsOf(x[..64]);
      } else if n > 512 {
        return false;
      } else {
        Finish(x, n);
        message := message + BitsOf(x)[..n];
        done := true;
      }
      ok := true;
    }

    /**
     Ends the computation if it is still open and returns the digest, low-order bytes first. The courtesy update
     reads one byte through a null pointer; the result does not depend on what it finds there.
     */
    method Final(atNull: bv8) returns (digest: seq<bv8>)
      requires Valid()
      modifies this, buffer, count
      ensures Valid() && done && message == old(message)
      ensures digest == DigestBytes(Digest(message)) && Holds(digest, Digest(message))
    {
      hide CountIs, Process, Digest, BitsOf, WordBytes, Holds;
      var _ := Update([atNull], 0);
      assert message == old(message);
      digest := [];
      for i := 0 to 4
        invariant Valid() && done && message == old(message)
        invariant digest == DigestBytes(St())[..4 * i]
      {
        var w := buffer[i];
        digest := digest + WordBytes(w);
      }
      HoldsDigest(Digest(message));
    }
  }

  // ---------------------------------------------------------------- whole messages

  /** The bits of a message up to byte `a`, and `m` bits of what follows. */
  lemma BitsSlice(x: seq<bv8>, a: nat, m: nat)
    requires a <= |x| && m <= 8 * (|x| - a)
    ensures BitsOf(x)[..8 * a] + BitsOf(x[a..])[..m] == BitsOf(x)[..8 * a + m]
    ensures m % 8 == 0 ==> BitsOf(x[a..][..m / 8]) == BitsOf(x[a..])[..m]
  {
    hide BitsOf;
    var y := x[a..];
    assert x == x[..a] + y;
    BitsConcat(x[..a], y);
    if m % 8 == 0 {
      assert y == y[..m / 8] + y[m / 8..];
      BitsConcat(y[..m / 8], y[m / 8..]);
    }
  }

  /** Full blocks, then the rest: the digest of any message of fewer than 2^64 bits. */
  method HashMessage(x: seq<bv8>, n: nat, atNull: bv8) returns (digest: seq<bv8>)
    requires n < LIMIT && n / 8 < |x|
    ensures digest == DigestBytes(Digest(BitsOf(x)[..n])) && Holds(digest, Digest(BitsOf(x)[..n]))
  {
    hide Holds, BitsOf, Digest, Process, CountIs, DigestBytes;
    var c := new Context();
    var k := 0;
    while 512 * k + 512 <= n
      invariant 0 <= 512 * k <= n && fresh(c) && fresh(c.buffer) && fresh(c.count)
      invariant c.Valid() && !c.done && c.message == BitsOf(x)[..512 * k]
    {
      BitsSlice(x, 64 * k, 512);
      var _ := c.Update(x[64 * k..], 512);
      k := k + 1;
    }
    BitsSlice(x, 64 * k, n - 512 * k);
    var _ := c.Update(x[64 * k..], n - 512 * k);
    digest := c.Final(atNull);
  }
}
