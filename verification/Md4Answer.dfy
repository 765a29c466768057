/** A known answer: the digest of the empty message, as section A.5 of RFC 1320 lists it. */
module Md4Answer {
  import opened Md4Reference

  /** The only block of the empty message: a 1 bit, zeros, and the length 0. */
  const BLOCK: seq<bv32> := [0x80, 0, 0, 0, 0, 0, 0, 0, 0, 0, 0, 0, 0, 0, 0, 0]

  /** Every round takes word 0 first. */
  lemma WordOfBlock(i: nat)
    requires i < 48
    ensures WordAt(BLOCK, i) == if i % 16 == 0 then 0x80 else 0
  {
    assert WORD_ORDER[i / 16][i % 16] == 0 <==> i % 16 == 0;
  }

  lemma ShiftsOfRound(i: nat)
    requires i < 48 && i % 4 == 0
    ensures ShiftAt(i) == 3
    ensures ShiftAt(i + 1) == (if i < 16 then 7 else if i < 32 then 5 else 9)
    ensures ShiftAt(i + 2) == (if i < 16 then 11 else if i < 32 then 9 else 11)
    ensures ShiftAt(i + 3) == (if i < 16 then 19 else if i < 32 then 13 else 15)
  {
  }

  function Turned(st: State, word: bv32): State { State(st.d, word, st.b, st.c) }

  /** Four steps of a round, the first with word `x` and the others with 0. */
  function Quad(round: nat, st: State, x: bv32, s1: nat, s2: nat, s3: nat): State
    requires s1 < 32 && s2 < 32 && s3 < 32
  {
    var t := Turned(st, Operation(round, st.a, st.b, st.c, st.d, x, 3));
    var u := Turned(t, Operation(round, t.a, t.b, t.c, t.d, 0, s1));
    var v := Turned(u, Operation(round, u.a, u.b, u.c, u.d, 0, s2));
    Turned(v, Operation(round, v.a, v.b, v.c, v.d, 0, s3))
  }

  lemma OneStep(st: State, n: nat)
    requires n < 48
    ensures var s := Steps(st, BLOCK, n);
      Steps(st, BLOCK, n + 1) ==
        Turned(s, Operation(n / 16, s.a, s.b, s.c, s.d, if n % 16 == 0 then 0x80 else 0, ShiftAt(n)))
  {
    WordOfBlock(n);
    hide WordAt, ShiftAt, Operation;
  }

  lemma FourSteps(st: State, n: nat)
    requires n < 48 && n % 4 == 0
    ensures Steps(st, BLOCK, n + 4) ==
      Quad(n / 16, Steps(st, BLOCK, n), if n % 16 == 0 then 0x80 else 0,
           if n < 16 then 7 else if n < 32 then 5 else 9,
           if n < 16 then 11 else if n < 32 then 9 else 11, if n < 16 then 19 else if n < 32 then 13 else 15)
  {
    hide Steps, ShiftAt, Operation;
    ShiftsOfRound(n);
    assert (n + 1) / 16 == (n + 2) / 16 == (n + 3) / 16 == n / 16;
    assert (n + 1) % 16 != 0 && (n + 2) % 16 != 0 && (n + 3) % 16 != 0;
    OneStep(st, n);
    OneStep(st, n + 1);
    OneStep(st, n + 2);
    OneStep(st, n + 3);
  }

  lemma Quad0()
    ensures Quad(0, State(0x67452301, 0xefcdab89, 0x98badcfe, 0x10325476), 0x80, 7, 11, 19)
         == State(0x000003f8, 0x740f9e7d, 0x0446b910, 0x769a0254)
  {
  }

  lemma Quad1()
    ensures Quad(0, State(0x000003f8, 0x740f9e7d, 0x0446b910, 0x769a0254), 0, 7, 11, 19)
         == State(0x34b4e040, 0xf5ef256b, 0x6c2bc1c2, 0x704dd255)
  {
  }

  lemma Quad2()
    ensures Quad(0, State(0x34b4e040, 0xf5ef256b, 0x6c2bc1c2, 0x704dd255), 0, 7, 11, 19)
         == State(0xc7059cb4, 0x18be2386, 0x8bf5399c, 0xbe8bdbae)
  {
  }

  lemma Quad3()
    ensures Quad(0, State(0xc7059cb4, 0x18be2386, 0x8bf5399c, 0xbe8bdbae), 0, 7, 11, 19)
         == State(0xaddcb303, 0x3665f296, 0x8ee8f245, 0xa483a664)
  {
  }

  lemma Quad4()
    ensures Quad(1, State(0xaddcb303, 0x3665f296, 0x8ee8f245, 0xa483a664), 0x80, 5, 9, 13)
         == State(0x7a08fb05, 0x66cec932, 0x98bbca4f, 0xade24047)
  {
  }

  lemma Quad5()
    ensures Quad(1, State(0x7a08fb05, 0x66cec932, 0x98bbca4f, 0xade24047), 0, 5, 9, 13)
         == State(0x0bb1e72c, 0x3d0db9ec, 0x9e4a14b3, 0x6410a1c2)
  {
  }

  lemma Quad6()
    ensures Quad(1, State(0x0bb1e72c, 0x3d0db9ec, 0x9e4a14b3, 0x6410a1c2), 0, 5, 9, 13)
         == State(0x11e8953d, 0xc8d84161, 0x727f1264, 0x7b76231b)
  {
  }

  lemma Quad7()
    ensures Quad(1, State(0x11e8953d, 0xc8d84161, 0x727f1264, 0x7b76231b), 0, 5, 9, 13)
         == State(0x374891bf, 0x6f952b2e, 0xb49a4dae, 0x0a15c329)
  {
  }

  lemma Quad8()
    ensures Quad(2, State(0x374891bf, 0x6f952b2e, 0xb49a4dae, 0x0a15c329), 0x80, 9, 11, 15)
         == State(0xb9e91c4b, 0x28f076bd, 0x1ab10ced, 0xac532bb7)
  {
  }

  lemma Quad9()
    ensures Quad(2, State(0xb9e91c4b, 0x28f076bd, 0x1ab10ced, 0xac532bb7), 0, 9, 11, 15)
         == State(0x36aace9e, 0xb8b9000f, 0x6f678dca, 0x31984c40)
  {
  }

  lemma Quad10()
    ensures Quad(2, State(0x36aace9e, 0xb8b9000f, 0x6f678dca, 0x31984c40), 0, 9, 11, 15)
         == State(0x5e5bde24, 0x187317b3, 0xb69f1f41, 0xef178453)
  {
  }

  lemma Quad11()
    ensures Quad(2, State(0x5e5bde24, 0x187317b3, 0xb69f1f41, 0xef178453), 0, 9, 11, 15)
         == State(0x798ab330, 0x421bbf48, 0x3e9e5fb9, 0xb0576c6a)
  {
  }

  lemma Round1(st: State)
    requires Steps(st, BLOCK, 0) == State(0x67452301, 0xefcdab89, 0x98badcfe, 0x10325476)
    ensures Steps(st, BLOCK, 16) == State(0xaddcb303, 0x3665f296, 0x8ee8f245, 0xa483a664)
  {
    hide Steps, Quad;
    FourSteps(st, 0);
    Quad0();
    FourSteps(st, 4);
    Quad1();
    FourSteps(st, 8);
    Quad2();
    FourSteps(st, 12);
    Quad3();
  }

  lemma Round2(st: State)
    requires Steps(st, BLOCK, 16) == State(0xaddcb303, 0x3665f296, 0x8ee8f245, 0xa483a664)
    ensures Steps(st, BLOCK, 32) == State(0x374891bf, 0x6f952b2e, 0xb49a4dae, 0x0a15c329)
  {
    hide Steps, Quad;
    FourSteps(st, 16);
    Quad4();
    FourSteps(st, 20);
    Quad5();
    FourSteps(st, 24);
    Quad6();
    FourSteps(st, 28);
    Quad7();
  }

  lemma Round3(st: State)
    requires Steps(st, BLOCK, 32) == State(0x374891bf, 0x6f952b2e, 0xb49a4dae, 0x0a15c329)
    ensures Steps(st, BLOCK, 48) == State(0x798ab330, 0x421bbf48, 0x3e9e5fb9, 0xb0576c6a)
  {
    hide Steps, Quad;
    FourSteps(st, 32);
    Quad8();
    FourSteps(st, 36);
    Quad9();
    FourSteps(st, 40);
    Quad10();
    FourSteps(st, 44);
    Quad11();
  }

  lemma EmptyBlock()
    ensures |Padded([])| == 512 && WordsOf(Padded([])) == BLOCK
  {
    var p := Padded([]);
    var len := LengthBytes(0);
    forall i | 0 <= i < 8 ensures len[i] == 0 { QuotientOfZero(i); }
    forall k | 0 <= k < 512 ensures p[k] == (k == 0) {
      if k >= 448 { NoBitsInZero((k - 448) % 8); }
    }
    hide Padded;
    forall i | 0 <= i < 64 ensures ByteIn(p, i) == if i == 0 then 0x80 else 0 { ByteOfBlock(p, i); }
    hide ByteIn;
  }

  lemma NoBitsInZero(j: nat)
    requires j < 8
    ensures !BitAt(0, j)
  {
  }

  lemma ByteOfBlock(p: seq<bool>, i: nat)
    requires |p| == 512 && i < 64 && forall k :: 0 <= k < 512 ==> p[k] == (k == 0)
    ensures ByteIn(p, i) == if i == 0 then 0x80 else 0
  {
  }

  /** MD4 of the empty message is 31d6cfe0 d16ae931 b73c59d7 e0c089c0. */
  lemma DigestOfNothing()
    ensures DigestBytes(Digest([])) ==
      [0x31, 0xd6, 0xcf, 0xe0, 0xd1, 0x6a, 0xe9, 0x31, 0xb7, 0x3c, 0x59, 0xd7, 0xe0, 0xc0, 0x89, 0xc0]
  {
    EmptyBlock();
    StepsOfBlock();
    LastSums();
    LastBytes();
    hide Steps, Padded, WordsOf, DigestBytes, Add;
    var p := Padded([]);
    assert p[..0] == [] && p[0..] == p;
    assert Process(p) == Compress(Process([]), WordsOf(p));
  }

  lemma StepsOfBlock()
    ensures Steps(INITIAL, BLOCK, 48) == State(0x798ab330, 0x421bbf48, 0x3e9e5fb9, 0xb0576c6a)
  {
    assert Steps(INITIAL, BLOCK, 0) == INITIAL;
    hide Steps;
    Round1(INITIAL);
    Round2(INITIAL);
    Round3(INITIAL);
  }

  lemma LastSums()
    ensures Add(INITIAL, State(0x798ab330, 0x421bbf48, 0x3e9e5fb9, 0xb0576c6a))
         == State(0xe0cfd631, 0x31e96ad1, 0xd7593cb7, 0xc089c0e0)
  {
  }

  lemma LastBytes()
    ensures DigestBytes(State(0xe0cfd631, 0x31e96ad1, 0xd7593cb7, 0xc089c0e0)) ==
      [0x31, 0xd6, 0xcf, 0xe0, 0xd1, 0x6a, 0xe9, 0x31, 0xb7, 0x3c, 0x59, 0xd7, 0xe0, 0xc0, 0x89, 0xc0]
  {
  }
}
