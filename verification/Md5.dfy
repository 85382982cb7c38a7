/** The streaming MD5 implementation of the media library: a 64-byte carry buffer,
    a byte counter kept in 29 and 32 bits, and rewritten auxiliary functions. */
module Md5Streaming {
  import opened Rfc1321

  // ----- The macros -----

  function CodeF(x: Word, y: Word, z: Word): Word { Word(z.bits ^ (x.bits & (y.bits ^ z.bits))) }
  function CodeG(x: Word, y: Word, z: Word): Word { Word(y.bits ^ (z.bits & (x.bits ^ y.bits))) }
  function CodeH(x: Word, y: Word, z: Word): Word { Word((x.bits ^ y.bits) ^ z.bits) }
  function CodeH2(x: Word, y: Word, z: Word): Word { Word(x.bits ^ (y.bits ^ z.bits)) }
  function CodeI(x: Word, y: Word, z: Word): Word { Word(y.bits ^ (x.bits | !z.bits)) }

  /** One step; `f` is the value of the auxiliary function. */
  function Step(f: Word, a: Word, b: Word, x: Word, t: bits32, s: nat): Word
    requires 0 < s < 32
  {
    Added(CodeRotate(CodeSum(a, f, x, t), s), b)
  }

  function Added(x: Word, y: Word): Word {
    Word(x.bits + y.bits)
  }

  function CodeSum(a: Word, f: Word, x: Word, t: bits32): Word {
    Word(a.bits + (f.bits + x.bits + t))
  }

  function CodeRotate(x: Word, s: nat): Word
    requires 0 < s < 32
  {
    Word((x.bits << s) | ((x.bits & 0xffffffff) >> (32 - s)))
  }

  /** Word `n` of the block, put together from its bytes. */
  function Set(block: seq<byte>, n: nat): Word
    requires 4 * n + 4 <= |block|
  {
    Word((block[4 * n] as bits32)
         | ((block[4 * n + 1] as bits32) << 8)
         | ((block[4 * n + 2] as bits32) << 16)
         | ((block[4 * n + 3] as bits32) << 24))
  }

  lemma CodeFIsF(x: Word, y: Word, z: Word)
    ensures CodeF(x, y, z) == F(x, y, z)
  {
  }

  lemma CodeGIsG(x: Word, y: Word, z: Word)
    ensures CodeG(x, y, z) == G(x, y, z)
  {
  }

  lemma CodeHIsH(x: Word, y: Word, z: Word)
    ensures CodeH(x, y, z) == CodeH2(x, y, z) == H(x, y, z)
  {
  }

  lemma CodeIIsI(x: Word, y: Word, z: Word)
    ensures CodeI(x, y, z) == I(x, y, z)
  {
  }

  /** The macro that step `j` of round `r` uses. */
  function CodeAux(r: nat, j: nat, x: Word, y: Word, z: Word): Word {
    if r == 0 then CodeF(x, y, z)
    else if r == 1 then CodeG(x, y, z)
    else if r == 2 then (if j % 2 == 0 then CodeH(x, y, z) else CodeH2(x, y, z))
    else CodeI(x, y, z)
  }

  lemma MacrosAreRfcFunctions(r: nat, j: nat, x: Word, y: Word, z: Word)
    ensures CodeAux(r, j, x, y, z) == Aux(r, x, y, z)
  {
    hide CodeF, CodeG, CodeH, CodeH2, CodeI, F, G, H, I;
    CodeFIsF(x, y, z);
    CodeGIsG(x, y, z);
    CodeHIsH(x, y, z);
    CodeIIsI(x, y, z);
  }

  /** The bytes of a register, low-order byte first. */
  function BytesOf(w: Word): seq<byte> {
    [(w.bits & 0xff) as byte, ((w.bits >> 8) & 0xff) as byte, ((w.bits >> 16) & 0xff) as byte,
     ((w.bits >> 24) & 0xff) as byte]
  }

  lemma BytesAreEncoded(st: State)
    ensures BytesOf(st.a) + BytesOf(st.b) + BytesOf(st.c) + BytesOf(st.d) == Encode(st)
  {
    BytesOfRegister(st.a);
    BytesOfRegister(st.b);
    BytesOfRegister(st.c);
    BytesOfRegister(st.d);
    hide BytesOf, EncodeWord;
  }

  lemma BytesOfRegister(w: Word)
    ensures BytesOf(w) == EncodeWord(w)
  {
  }

  lemma SetIsDecode(block: seq<byte>, n: nat)
    requires 4 * n + 4 <= |block|
    ensures Set(block, n) == Decode(block, n)
  {
    OrIsSum(block[4 * n], block[4 * n + 1], block[4 * n + 2], block[4 * n + 3]);
  }

  lemma OrIsSum(b0: byte, b1: byte, b2: byte, b3: byte)
    ensures (b0 as bits32) | ((b1 as bits32) << 8) | ((b2 as bits32) << 16) | ((b3 as bits32) << 24)
         == (b0 as bits32) + ((b1 as bits32) << 8) + ((b2 as bits32) << 16) + ((b3 as bits32) << 24)
  {
  }

  lemma RotateRound1(x: Word, s: nat)
    requires s == 7 || s == 12 || s == 17 || s == 22
    ensures CodeRotate(x, s) == RotateLeft(x, s)
  {
    if s == 7 {
      assert (x.bits << 7) | ((x.bits & 0xffffffff) >> 25) == x.bits.RotateLeft(7);
    } else if s == 12 {
      assert (x.bits << 12) | ((x.bits & 0xffffffff) >> 20) == x.bits.RotateLeft(12);
    } else if s == 17 {
      assert (x.bits << 17) | ((x.bits & 0xffffffff) >> 15) == x.bits.RotateLeft(17);
    } else {
      assert (x.bits << 22) | ((x.bits & 0xffffffff) >> 10) == x.bits.RotateLeft(22);
    }
  }

  lemma RotateRound2(x: Word, s: nat)
    requires s == 5 || s == 9 || s == 14 || s == 20
    ensures CodeRotate(x, s) == RotateLeft(x, s)
  {
    if s == 5 {
      assert (x.bits << 5) | ((x.bits & 0xffffffff) >> 27) == x.bits.RotateLeft(5);
    } else if s == 9 {
      assert (x.bits << 9) | ((x.bits & 0xffffffff) >> 23) == x.bits.RotateLeft(9);
    } else if s == 14 {
      assert (x.bits << 14) | ((x.bits & 0xffffffff) >> 18) == x.bits.RotateLeft(14);
    } else {
      assert (x.bits << 20) | ((x.bits & 0xffffffff) >> 12) == x.bits.RotateLeft(20);
    }
  }

  lemma RotateRound3(x: Word, s: nat)
    requires s == 4 || s == 11 || s == 16 || s == 23
    ensures CodeRotate(x, s) == RotateLeft(x, s)
  {
    if s == 4 {
      assert (x.bits << 4) | ((x.bits & 0xffffffff) >> 28) == x.bits.RotateLeft(4);
    } else if s == 11 {
      assert (x.bits << 11) | ((x.bits & 0xffffffff) >> 21) == x.bits.RotateLeft(11);
    } else if s == 16 {
      assert (x.bits << 16) | ((x.bits & 0xffffffff) >> 16) == x.bits.RotateLeft(16);
    } else {
      assert (x.bits << 23) | ((x.bits & 0xffffffff) >> 9) == x.bits.RotateLeft(23);
    }
  }

  lemma RotateRound4(x: Word, s: nat)
    requires s == 6 || s == 10 || s == 15 || s == 21
    ensures CodeRotate(x, s) == RotateLeft(x, s)
  {
    if s == 6 {
      assert (x.bits << 6) | ((x.bits & 0xffffffff) >> 26) == x.bits.RotateLeft(6);
    } else if s == 10 {
      assert (x.bits << 10) | ((x.bits & 0xffffffff) >> 22) == x.bits.RotateLeft(10);
    } else if s == 15 {
      assert (x.bits << 15) | ((x.bits & 0xffffffff) >> 17) == x.bits.RotateLeft(15);
    } else {
      assert (x.bits << 21) | ((x.bits & 0xffffffff) >> 11) == x.bits.RotateLeft(21);
    }
  }

  /** Whatever the shift, the shifted and or-ed halves are a rotation. */
  lemma ShiftOrIsRotate(r: nat, j: nat, x: Word)
    ensures CodeRotate(x, Shift(r, j)) == RotateLeft(x, Shift(r, j))
  {
    hide CodeRotate, RotateLeft;
    if r == 0 {
      RotateRound1(x, Shift(r, j));
    } else if r == 1 {
      RotateRound2(x, Shift(r, j));
    } else if r == 2 {
      RotateRound3(x, Shift(r, j));
    } else {
      RotateRound4(x, Shift(r, j));
    }
  }

  /** Operation `j` of round `r` uses word `k` of the block, table entry `t` and shift `s`. */
  ghost predicate Uses(r: nat, j: nat, k: nat, t: bits32, s: nat)
    requires j < 16
  {
    k == WordIndex(r, j) < 16 && t == T(r, j) && s == Shift(r, j)
  }

  lemma StepIsNewRegister(r: nat, j: nat, f: Word, a: Word, b: Word, x: Word, t: bits32)
    ensures Step(f, a, b, x, t, Shift(r, j)) == NewRegister(f, a, b, x, t, Shift(r, j))
  {
    hide CodeRotate, RotateLeft, Shift, CodeSum, Sum, Added, Plus;
    CodeSumIsSum(a, f, x, t);
    ShiftOrIsRotate(r, j, Sum(a, f, x, t));
    AddedIsPlus(RotateLeft(Sum(a, f, x, t), Shift(r, j)), b);
  }

  lemma AddedIsPlus(x: Word, y: Word)
    ensures Added(x, y) == Plus(y, x)
  {
  }

  lemma CodeSumIsSum(a: Word, f: Word, x: Word, t: bits32)
    ensures CodeSum(a, f, x, t) == Sum(a, f, x, t)
  {
  }

  /** One step of the code computes the register that one operation changes. */
  lemma StepIsOperation(r: nat, j: nat, k: nat, t: bits32, s: nat, block: seq<byte>, st: State, now: State)
    requires j < 16 && |block| == 64 && now == Operations(r, j, block, st)
    requires Uses(r, j, k, t, s)
    ensures k < 16 && 0 < s < 32
    ensures Operations(r, j + 1, block, st) ==
            State(now.d, Step(CodeAux(r, j, now.b, now.c, now.d), now.a, now.b, Set(block, k), t, s), now.b, now.c)
  {
    hide Step, NewRegister, CodeAux, Aux, Set, Decode, T;
    MacrosAreRfcFunctions(r, j, now.b, now.c, now.d);
    SetIsDecode(block, k);
    StepIsNewRegister(r, j, Aux(r, now.b, now.c, now.d), now.a, now.b, Decode(block, k), t);
  }

  lemma NoOperations(r: nat, block: seq<byte>, st: State)
    requires |block| == 64
    ensures Operations(r, 0, block, st) == st
  {
  }

  // ----- The four rounds of `body` -----

  lemma Table1FirstHalf()
    ensures Uses(0, 0, 0, 0xd76aa478, 7)
    ensures Uses(0, 1, 1, 0xe8c7b756, 12)
    ensures Uses(0, 2, 2, 0x242070db, 17)
    ensures Uses(0, 3, 3, 0xc1bdceee, 22)
    ensures Uses(0, 4, 4, 0xf57c0faf, 7)
    ensures Uses(0, 5, 5, 0x4787c62a, 12)
    ensures Uses(0, 6, 6, 0xa8304613, 17)
    ensures Uses(0, 7, 7, 0xfd469501, 22)
  {
  }

  lemma Table1SecondHalf()
    ensures Uses(0, 8, 8, 0x698098d8, 7)
    ensures Uses(0, 9, 9, 0x8b44f7af, 12)
    ensures Uses(0, 10, 10, 0xffff5bb1, 17)
    ensures Uses(0, 11, 11, 0x895cd7be, 22)
    ensures Uses(0, 12, 12, 0x6b901122, 7)
    ensures Uses(0, 13, 13, 0xfd987193, 12)
    ensures Uses(0, 14, 14, 0xa679438e, 17)
    ensures Uses(0, 15, 15, 0x49b40821, 22)
  {
  }

  method Round1(block: seq<byte>, st: State) returns (a: Word, b: Word, c: Word, d: Word)
    requires |block| == 64
    ensures State(a, b, c, d) == Operations(0, 16, block, st)
  {
    NoOperations(0, block, st);
    Table1FirstHalf();
    Table1SecondHalf();
    hide Operations, Step, Set, CodeF, CodeG, CodeH, CodeH2, CodeI, Uses;
    a, b, c, d := st.a, st.b, st.c, st.d;
    StepIsOperation(0, 0, 0, 0xd76aa478, 7, block, st, State(a, b, c, d));
    a := Step(CodeF(b, c, d), a, b, Set(block, 0), 0xd76aa478, 7);
    StepIsOperation(0, 1, 1, 0xe8c7b756, 12, block, st, State(d, a, b, c));
    d := Step(CodeF(a, b, c), d, a, Set(block, 1), 0xe8c7b756, 12);
    StepIsOperation(0, 2, 2, 0x242070db, 17, block, st, State(c, d, a, b));
    c := Step(CodeF(d, a, b), c, d, Set(block, 2), 0x242070db, 17);
    StepIsOperation(0, 3, 3, 0xc1bdceee, 22, block, st, State(b, c, d, a));
    b := Step(CodeF(c, d, a), b, c, Set(block, 3), 0xc1bdceee, 22);
    StepIsOperation(0, 4, 4, 0xf57c0faf, 7, block, st, State(a, b, c, d));
    a := Step(CodeF(b, c, d), a, b, Set(block, 4), 0xf57c0faf, 7);
    StepIsOperation(0, 5, 5, 0x4787c62a, 12, block, st, State(d, a, b, c));
    d := Step(CodeF(a, b, c), d, a, Set(block, 5), 0x4787c62a, 12);
    StepIsOperation(0, 6, 6, 0xa8304613, 17, block, st, State(c, d, a, b));
    c := Step(CodeF(d, a, b), c, d, Set(block, 6), 0xa8304613, 17);
    StepIsOperation(0, 7, 7, 0xfd469501, 22, block, st, State(b, c, d, a));
    b := Step(CodeF(c, d, a), b, c, Set(block, 7), 0xfd469501, 22);
    StepIsOperation(0, 8, 8, 0x698098d8, 7, block, st, State(a, b, c, d));
    a := Step(CodeF(b, c, d), a, b, Set(block, 8), 0x698098d8, 7);
    StepIsOperation(0, 9, 9, 0x8b44f7af, 12, block, st, State(d, a, b, c));
    d := Step(CodeF(a, b, c), d, a, Set(block, 9), 0x8b44f7af, 12);
    StepIsOperation(0, 10, 10, 0xffff5bb1, 17, block, st, State(c, d, a, b));
    c := Step(CodeF(d, a, b), c, d, Set(block, 10), 0xffff5bb1, 17);
    StepIsOperation(0, 11, 11, 0x895cd7be, 22, block, st, State(b, c, d, a));
    b := Step(CodeF(c, d, a), b, c, Set(block, 11), 0x895cd7be, 22);
    StepIsOperation(0, 12, 12, 0x6b901122, 7, block, st, State(a, b, c, d));
    a := Step(CodeF(b, c, d), a, b, Set(block, 12), 0x6b901122, 7);
    StepIsOperation(0, 13, 13, 0xfd987193, 12, block, st, State(d, a, b, c));
    d := Step(CodeF(a, b, c), d, a, Set(block, 13), 0xfd987193, 12);
    StepIsOperation(0, 14, 14, 0xa679438e, 17, block, st, State(c, d, a, b));
    c := Step(CodeF(d, a, b), c, d, Set(block, 14), 0xa679438e, 17);
    StepIsOperation(0, 15, 15, 0x49b40821, 22, block, st, State(b, c, d, a));
    b := Step(CodeF(c, d, a), b, c, Set(block, 15), 0x49b40821, 22);
  }

  lemma Table2FirstHalf()
    ensures Uses(1, 0, 1, 0xf61e2562, 5)
    ensures Uses(1, 1, 6, 0xc040b340, 9)
    ensures Uses(1, 2, 11, 0x265e5a51, 14)
    ensures Uses(1, 3, 0, 0xe9b6c7aa, 20)
    ensures Uses(1, 4, 5, 0xd62f105d, 5)
    ensures Uses(1, 5, 10, 0x02441453, 9)
    ensures Uses(1, 6, 15, 0xd8a1e681, 14)
    ensures Uses(1, 7, 4, 0xe7d3fbc8, 20)
  {
  }

  lemma Table2SecondHalf()
    ensures Uses(1, 8, 9, 0x21e1cde6, 5)
    ensures Uses(1, 9, 14, 0xc33707d6, 9)
    ensures Uses(1, 10, 3, 0xf4d50d87, 14)
    ensures Uses(1, 11, 8, 0x455a14ed, 20)
    ensures Uses(1, 12, 13, 0xa9e3e905, 5)
    ensures Uses(1, 13, 2, 0xfcefa3f8, 9)
    ensures Uses(1, 14, 7, 0x676f02d9, 14)
    ensures Uses(1, 15, 12, 0x8d2a4c8a, 20)
  {
  }

  method Round2(block: seq<byte>, st: State) returns (a: Word, b: Word, c: Word, d: Word)
    requires |block| == 64
    ensures State(a, b, c, d) == Operations(1, 16, block, st)
  {
    NoOperations(1, block, st);
    Table2FirstHalf();
    Table2SecondHalf();
    hide Operations, Step, Set, CodeF, CodeG, CodeH, CodeH2, CodeI, Uses;
    a, b, c, d := st.a, st.b, st.c, st.d;
    StepIsOperation(1, 0, 1, 0xf61e2562, 5, block, st, State(a, b, c, d));
    a := Step(CodeG(b, c, d), a, b, Set(block, 1), 0xf61e2562, 5);
    StepIsOperation(1, 1, 6, 0xc040b340, 9, block, st, State(d, a, b, c));
    d := Step(CodeG(a, b, c), d, a, Set(block, 6), 0xc040b340, 9);
    StepIsOperation(1, 2, 11, 0x265e5a51, 14, block, st, State(c, d, a, b));
    c := Step(CodeG(d, a, b), c, d, Set(block, 11), 0x265e5a51, 14);
    StepIsOperation(1, 3, 0, 0xe9b6c7aa, 20, block, st, State(b, c, d, a));
    b := Step(CodeG(c, d, a), b, c, Set(block, 0), 0xe9b6c7aa, 20);
    StepIsOperation(1, 4, 5, 0xd62f105d, 5, block, st, State(a, b, c, d));
    a := Step(CodeG(b, c, d), a, b, Set(block, 5), 0xd62f105d, 5);
    StepIsOperation(1, 5, 10, 0x02441453, 9, block, st, State(d, a, b, c));
    d := Step(CodeG(a, b, c), d, a, Set(block, 10), 0x02441453, 9);
    StepIsOperation(1, 6, 15, 0xd8a1e681, 14, block, st, State(c, d, a, b));
    c := Step(CodeG(d, a, b), c, d, Set(block, 15), 0xd8a1e681, 14);
    StepIsOperation(1, 7, 4, 0xe7d3fbc8, 20, block, st, State(b, c, d, a));
    b := Step(CodeG(c, d, a), b, c, Set(block, 4), 0xe7d3fbc8, 20);
    StepIsOperation(1, 8, 9, 0x21e1cde6, 5, block, st, State(a, b, c, d));
    a := Step(CodeG(b, c, d), a, b, Set(block, 9), 0x21e1cde6, 5);
    StepIsOperation(1, 9, 14, 0xc33707d6, 9, block, st, State(d, a, b, c));
    d := Step(CodeG(a, b, c), d, a, Set(block, 14), 0xc33707d6, 9);
    StepIsOperation(1, 10, 3, 0xf4d50d87, 14, block, st, State(c, d, a, b));
    c := Step(CodeG(d, a, b), c, d, Set(block, 3), 0xf4d50d87, 14);
    StepIsOperation(1, 11, 8, 0x455a14ed, 20, block, st, State(b, c, d, a));
    b := Step(CodeG(c, d, a), b, c, Set(block, 8), 0x455a14ed, 20);
    StepIsOperation(1, 12, 13, 0xa9e3e905, 5, block, st, State(a, b, c, d));
    a := Step(CodeG(b, c, d), a, b, Set(block, 13), 0xa9e3e905, 5);
    StepIsOperation(1, 13, 2, 0xfcefa3f8, 9, block, st, State(d, a, b, c));
    d := Step(CodeG(a, b, c), d, a, Set(block, 2), 0xfcefa3f8, 9);
    StepIsOperation(1, 14, 7, 0x676f02d9, 14, block, st, State(c, d, a, b));
    c := Step(CodeG(d, a, b), c, d, Set(block, 7), 0x676f02d9, 14);
    StepIsOperation(1, 15, 12, 0x8d2a4c8a, 20, block, st, State(b, c, d, a));
    b := Step(CodeG(c, d, a), b, c, Set(block, 12), 0x8d2a4c8a, 20);
  }

  lemma Table3FirstHalf()
    ensures Uses(2, 0, 5, 0xfffa3942, 4)
    ensures Uses(2, 1, 8, 0x8771f681, 11)
    ensures Uses(2, 2, 11, 0x6d9d6122, 16)
    ensures Uses(2, 3, 14, 0xfde5380c, 23)
    ensures Uses(2, 4, 1, 0xa4beea44, 4)
    ensures Uses(2, 5, 4, 0x4bdecfa9, 11)
    ensures Uses(2, 6, 7, 0xf6bb4b60, 16)
    ensures Uses(2, 7, 10, 0xbebfbc70, 23)
  {
  }

  lemma Table3SecondHalf()
    ensures Uses(2, 8, 13, 0x289b7ec6, 4)
    ensures Uses(2, 9, 0, 0xeaa127fa, 11)
    ensures Uses(2, 10, 3, 0xd4ef3085, 16)
    ensures Uses(2, 11, 6, 0x04881d05, 23)
    ensures Uses(2, 12, 9, 0xd9d4d039, 4)
    ensures Uses(2, 13, 12, 0xe6db99e5, 11)
    ensures Uses(2, 14, 15, 0x1fa27cf8, 16)
    ensures Uses(2, 15, 2, 0xc4ac5665, 23)
  {
  }

  method Round3(block: seq<byte>, st: State) returns (a: Word, b: Word, c: Word, d: Word)
    requires |block| == 64
    ensures State(a, b, c, d) == Operations(2, 16, block, st)
  {
    NoOperations(2, block, st);
    Table3FirstHalf();
    Table3SecondHalf();
    hide Operations, Step, Set, CodeF, CodeG, CodeH, CodeH2, CodeI, Uses;
    a, b, c, d := st.a, st.b, st.c, st.d;
    StepIsOperation(2, 0, 5, 0xfffa3942, 4, block, st, State(a, b, c, d));
    a := Step(CodeH(b, c, d), a, b, Set(block, 5), 0xfffa3942, 4);
    StepIsOperation(2, 1, 8, 0x8771f681, 11, block, st, State(d, a, b, c));
    d := Step(CodeH2(a, b, c), d, a, Set(block, 8), 0x8771f681, 11);
    StepIsOperation(2, 2, 11, 0x6d9d6122, 16, block, st, State(c, d, a, b));
    c := Step(CodeH(d, a, b), c, d, Set(block, 11), 0x6d9d6122, 16);
    StepIsOperation(2, 3, 14, 0xfde5380c, 23, block, st, State(b, c, d, a));
    b := Step(CodeH2(c, d, a), b, c, Set(block, 14), 0xfde5380c, 23);
    StepIsOperation(2, 4, 1, 0xa4beea44, 4, block, st, State(a, b, c, d));
    a := Step(CodeH(b, c, d), a, b, Set(block, 1), 0xa4beea44, 4);
    StepIsOperation(2, 5, 4, 0x4bdecfa9, 11, block, st, State(d, a, b, c));
    d := Step(CodeH2(a, b, c), d, a, Set(block, 4), 0x4bdecfa9, 11);
    StepIsOperation(2, 6, 7, 0xf6bb4b60, 16, block, st, State(c, d, a, b));
    c := Step(CodeH(d, a, b), c, d, Set(block, 7), 0xf6bb4b60, 16);
    StepIsOperation(2, 7, 10, 0xbebfbc70, 23, block, st, State(b, c, d, a));
    b := Step(CodeH2(c, d, a), b, c, Set(block, 10), 0xbebfbc70, 23);
    StepIsOperation(2, 8, 13, 0x289b7ec6, 4, block, st, State(a, b, c, d));
    a := Step(CodeH(b, c, d), a, b, Set(block, 13), 0x289b7ec6, 4);
    StepIsOperation(2, 9, 0, 0xeaa127fa, 11, block, st, State(d, a, b, c));
    d := Step(CodeH2(a, b, c), d, a, Set(block, 0), 0xeaa127fa, 11);
    StepIsOperation(2, 10, 3, 0xd4ef3085, 16, block, st, State(c, d, a, b));
    c := Step(CodeH(d, a, b), c, d, Set(block, 3), 0xd4ef3085, 16);
    StepIsOperation(2, 11, 6, 0x04881d05, 23, block, st, State(b, c, d, a));
    b := Step(CodeH2(c, d, a), b, c, Set(block, 6), 0x04881d05, 23);
    StepIsOperation(2, 12, 9, 0xd9d4d039, 4, block, st, State(a, b, c, d));
    a := Step(CodeH(b, c, d), a, b, Set(block, 9), 0xd9d4d039, 4);
    StepIsOperation(2, 13, 12, 0xe6db99e5, 11, block, st, State(d, a, b, c));
    d := Step(CodeH2(a, b, c), d, a, Set(block, 12), 0xe6db99e5, 11);
    StepIsOperation(2, 14, 15, 0x1fa27cf8, 16, block, st, State(c, d, a, b));
    c := Step(CodeH(d, a, b), c, d, Set(block, 15), 0x1fa27cf8, 16);
    StepIsOperation(2, 15, 2, 0xc4ac5665, 23, block, st, State(b, c, d, a));
    b := Step(CodeH2(c, d, a), b, c, Set(block, 2), 0xc4ac5665, 23);
  }

  lemma Table4FirstHalf()
    ensures Uses(3, 0, 0, 0xf4292244, 6)
    ensures Uses(3, 1, 7, 0x432aff97, 10)
    ensures Uses(3, 2, 14, 0xab9423a7, 15)
    ensures Uses(3, 3, 5, 0xfc93a039, 21)
    ensures Uses(3, 4, 12, 0x655b59c3, 6)
    ensures Uses(3, 5, 3, 0x8f0ccc92, 10)
    ensures Uses(3, 6, 10, 0xffeff47d, 15)
    ensures Uses(3, 7, 1, 0x85845dd1, 21)
  {
  }

  lemma Table4SecondHalf()
    ensures Uses(3, 8, 8, 0x6fa87e4f, 6)
    ensures Uses(3, 9, 15, 0xfe2ce6e0, 10)
    ensures Uses(3, 10, 6, 0xa3014314, 15)
    ensures Uses(3, 11, 13, 0x4e0811a1, 21)
    ensures Uses(3, 12, 4, 0xf7537e82, 6)
    ensures Uses(3, 13, 11, 0xbd3af235, 10)
    ensures Uses(3, 14, 2, 0x2ad7d2bb, 15)
    ensures Uses(3, 15, 9, 0xeb86d391, 21)
  {
  }

  method Round4(block: seq<byte>, st: State) returns (a: Word, b: Word, c: Word, d: Word)
    requires |block| == 64
    ensures State(a, b, c, d) == Operations(3, 16, block, st)
  {
    NoOperations(3, block, st);
    Table4FirstHalf();
    Table4SecondHalf();
    hide Operations, Step, Set, CodeF, CodeG, CodeH, CodeH2, CodeI, Uses;
    a, b, c, d := st.a, st.b, st.c, st.d;
    StepIsOperation(3, 0, 0, 0xf4292244, 6, block, st, State(a, b, c, d));
    a := Step(CodeI(b, c, d), a, b, Set(block, 0), 0xf4292244, 6);
    StepIsOperation(3, 1, 7, 0x432aff97, 10, block, st, State(d, a, b, c));
    d := Step(CodeI(a, b, c), d, a, Set(block, 7), 0x432aff97, 10);
    StepIsOperation(3, 2, 14, 0xab9423a7, 15, block, st, State(c, d, a, b));
    c := Step(CodeI(d, a, b), c, d, Set(block, 14), 0xab9423a7, 15);
    StepIsOperation(3, 3, 5, 0xfc93a039, 21, block, st, State(b, c, d, a));
    b := Step(CodeI(c, d, a), b, c, Set(block, 5), 0xfc93a039, 21);
    StepIsOperation(3, 4, 12, 0x655b59c3, 6, block, st, State(a, b, c, d));
    a := Step(CodeI(b, c, d), a, b, Set(block, 12), 0x655b59c3, 6);
    StepIsOperation(3, 5, 3, 0x8f0ccc92, 10, block, st, State(d, a, b, c));
    d := Step(CodeI(a, b, c), d, a, Set(block, 3), 0x8f0ccc92, 10);
    StepIsOperation(3, 6, 10, 0xffeff47d, 15, block, st, State(c, d, a, b));
    c := Step(CodeI(d, a, b), c, d, Set(block, 10), 0xffeff47d, 15);
    StepIsOperation(3, 7, 1, 0x85845dd1, 21, block, st, State(b, c, d, a));
    b := Step(CodeI(c, d, a), b, c, Set(block, 1), 0x85845dd1, 21);
    StepIsOperation(3, 8, 8, 0x6fa87e4f, 6, block, st, State(a, b, c, d));
    a := Step(CodeI(b, c, d), a, b, Set(block, 8), 0x6fa87e4f, 6);
    StepIsOperation(3, 9, 15, 0xfe2ce6e0, 10, block, st, State(d, a, b, c));
    d := Step(CodeI(a, b, c), d, a, Set(block, 15), 0xfe2ce6e0, 10);
    StepIsOperation(3, 10, 6, 0xa3014314, 15, block, st, State(c, d, a, b));
    c := Step(CodeI(d, a, b), c, d, Set(block, 6), 0xa3014314, 15);
    StepIsOperation(3, 11, 13, 0x4e0811a1, 21, block, st, State(b, c, d, a));
    b := Step(CodeI(c, d, a), b, c, Set(block, 13), 0x4e0811a1, 21);
    StepIsOperation(3, 12, 4, 0xf7537e82, 6, block, st, State(a, b, c, d));
    a := Step(CodeI(b, c, d), a, b, Set(block, 4), 0xf7537e82, 6);
    StepIsOperation(3, 13, 11, 0xbd3af235, 10, block, st, State(d, a, b, c));
    d := Step(CodeI(a, b, c), d, a, Set(block, 11), 0xbd3af235, 10);
    StepIsOperation(3, 14, 2, 0x2ad7d2bb, 15, block, st, State(c, d, a, b));
    c := Step(CodeI(d, a, b), c, d, Set(block, 2), 0x2ad7d2bb, 15);
    StepIsOperation(3, 15, 9, 0xeb86d391, 21, block, st, State(b, c, d, a));
    b := Step(CodeI(c, d, a), b, c, Set(block, 9), 0xeb86d391, 21);
  }

  // ----- Chaining -----

  lemma {:induction false} ChainConcat(st: State, x: seq<byte>, y: seq<byte>)
    requires |x| % 64 == 0
    ensures Chain(st, x + y) == Chain(Chain(st, x), y)
    decreases |x|
  {
    hide Transform;
    if x == [] {
      assert x + y == y;
    } else {
      assert (x + y)[..64] == x[..64] && (x + y)[64..] == x[64..] + y;
      ChainConcat(Transform(st, x[..64]), x[64..], y);
    }
  }

  lemma ChainOne(st: State, data: seq<byte>)
    requires |data| >= 64
    ensures Chain(st, data) == Chain(Transform(st, data[..64]), data[64..])
  {
    hide Transform;
  }

  // ----- The streaming digest -----

  function LeftOver(length: nat): (n: nat)
    ensures n < 64 && n <= length
  {
    length % 64
  }

  /** The part of a message that fills whole blocks. */
  function WholeBlocks(message: seq<byte>): seq<byte> {
    message[..|message| - LeftOver(|message|)]
  }

  /** The part of a message that is left over. */
  function Tail(message: seq<byte>): seq<byte> {
    message[|message| - LeftOver(|message|)..]
  }

  class Md5 {
    var lo: nat
    var hi: nat
    var st: State
    var buffer: array<byte>
    ghost var message: seq<byte>  // all bytes so far

    /** The number of bytes modulo 2^61 in two parts, the registers after all whole
        blocks, the left-over bytes at the start of the buffer. */
    ghost predicate Valid()
      reads this, buffer
    {
      && buffer.Length == 64
      && lo == LowCount(|message|) && hi == HighCount(|message|)
      && st == Chain(INITIAL, WholeBlocks(message))
      && buffer[..LeftOver(|message|)] == Tail(message)
    }

    constructor ()
      ensures Valid() && message == [] && fresh(buffer)
    {
      lo, hi := 0, 0;
      st := INITIAL;
      buffer := new byte[64];
      message := [];
    }

    method Update(data: seq<byte>)
      requires Valid() && |data| < 0x1_0000_0000_0000_0000
      modifies this, buffer
      ensures Valid() && buffer == old(buffer) && message == old(message) + data
    {
      hide Chain, LowCount, HighCount, WholeBlocks, Tail, LeftOver;
      ghost var before := message;
      UsedIsLeftOver(|before|);
      var used := lo % 64;
      Count(|data|);
      message := before + data;
      CutsOf(before);
      if used != 0 {
        var available := 64 - used;
        if |data| < available {
          CopyIntoBuffer(used, data);
          StillInBuffer(before, data);
          return;
        }
        CopyIntoBuffer(used, data[..available]);
        FirstBlockFills(before, data, buffer[..]);
        Body(buffer[..]);
        ChainConcat(INITIAL, WholeBlocks(before), buffer[..]);
        Absorb(data[available..], |before| + available);
      } else {
        Absorb(data, |before|);
      }
    }

    /** Adds `size` to the number of bytes. */
    method Count(size: nat)
      requires lo == LowCount(|message|) && hi == HighCount(|message|)
      modifies this`lo, this`hi
      ensures lo == LowCount(|message| + size) && hi == HighCount(|message| + size)
    {
      CountAdds(|message|, size);
      hide LowCount, HighCount;
      var savedLo := lo;
      lo := (savedLo + size) % 0x1_0000_0000_0000_0000 % 0x2000_0000;
      if lo < savedLo {
        hi := (hi + 1) % 0x1_0000_0000;
      }
      hi := (hi + size / 0x2000_0000) % 0x1_0000_0000;
    }

    /** Processes the whole blocks of `rest` and keeps what is left over. */
    method Absorb(data: seq<byte>, ghost done: nat)
      requires buffer.Length == 64 && done % 64 == 0 && done <= |message| && data == message[done..]
      requires st == Chain(INITIAL, message[..done])
      modifies this`st, buffer
      ensures st == Chain(INITIAL, WholeBlocks(message)) && buffer[..LeftOver(|message|)] == Tail(message)
    {
      hide Chain, WholeBlocks, Tail;
      if |data| >= 64 {
        var whole := |data| - |data| % 64;
        BlocksFollow(message, done, data, whole);
        Body(data[..whole]);
        ChainConcat(INITIAL, message[..done], data[..whole]);
        LastCut(message, done + whole, data[whole..]);
        CopyIntoBuffer(0, data[whole..]);
      } else {
        LastCut(message, done, data);
        CopyIntoBuffer(0, data);
      }
    }

    /** Pads the message and returns its digest; the object is used up. */
    method Finalize() returns (result: seq<byte>)
      requires Valid()
      modifies this, buffer
      ensures result == Digest(old(message))
    {
      hide Chain, LowCount, HighCount, LittleEndian64, PaddingBefore, Encode, BytesOf, ByteOf, IsPadded, LeftOver, Tail,
           WholeBlocks;
      ghost var length := LittleEndian64(8 * |message|);
      ghost var first := PadTail();
      ghost var front := buffer[..56];
      WriteLength();
      PaddedByParts(message, length, first, front, buffer[..]);
      PaddingFills(message, length, first, buffer[..]);
      ChainInPieces(message, PaddingBefore(|message|, length), first, buffer[..]);
      Body(buffer[..]);
      BytesAreEncoded(st);
      result := BytesOf(st.a) + BytesOf(st.b) + BytesOf(st.c) + BytesOf(st.d);
    }

    /** Adds the one bit and the zero bits, and starts a new block if the length no
        longer fits; that block is `first`. */
    method PadTail() returns (ghost first: seq<byte>)
      requires Valid()
      modifies this`st, buffer
      ensures PadsTail(message, first, buffer[..56]) && |first| % 64 == 0
      ensures st == Chain(Chain(INITIAL, WholeBlocks(message)), first)
    {
      UsedIsLeftOver(|message|);
      hide LowCount, HighCount, LeftOver, Tail, Zeros;
      var used := lo % 64;
      CopyIntoBuffer(used, [0x80]);
      used := used + 1;
      var available := 64 - used;
      first := [];
      if available < 8 {
        CopyIntoBuffer(used, Zeros(available));
        first := buffer[..];
        Body(buffer[..]);
        used := 0;
        available := 64;
      }
      CopyIntoBuffer(used, Zeros(available - 8));
    }

    /** Writes the length in bits to the end of the buffer. */
    method WriteLength()
      requires buffer.Length == 64 && lo == LowCount(|message|) && hi == HighCount(|message|)
      modifies this`lo, buffer
      ensures buffer[..] == old(buffer[..56]) + LittleEndian64(8 * |message|)
    {
      LengthWritten(|message|);
      hide LowCount, HighCount, LittleEndian64, ByteOf;
      lo := lo * 8 % 0x1_0000_0000;
      CopyIntoBuffer(56, [ByteOf(lo), ByteOf(lo / 0x100), ByteOf(lo / 0x1_0000), ByteOf(lo / 0x100_0000),
                          ByteOf(hi), ByteOf(hi / 0x100), ByteOf(hi / 0x1_0000), ByteOf(hi / 0x100_0000)]);
    }

    method CopyIntoBuffer(at: nat, bytes: seq<byte>)
      requires buffer.Length == 64 && at + |bytes| <= 64
      modifies buffer
      ensures buffer[..] == old(buffer[..at]) + bytes + old(buffer[at + |bytes|..])
      ensures buffer[..at + |bytes|] == old(buffer[..at]) + bytes
    {
      forall i | 0 <= i < |bytes| {
        buffer[at + i] := bytes[i];
      }
    }

    /** Processes one or more whole blocks. */
    method Body(data: seq<byte>)
      requires |data| > 0 && |data| % 64 == 0
      modifies this`st
      ensures st == Chain(old(st), data)
    {
      hide Operations, Added;
      var ptr := 0;
      while true
        invariant 0 <= ptr < |data| && ptr % 64 == 0
        invariant Chain(st, data[ptr..]) == Chain(old(st), data)
        decreases |data| - ptr
      {
        var block := data[ptr..ptr + 64];
        ghost var saved := st;
        var a, b, c, d := Round1(block, st);
        a, b, c, d := Round2(block, State(a, b, c, d));
        a, b, c, d := Round3(block, State(a, b, c, d));
        a, b, c, d := Round4(block, State(a, b, c, d));
        RoundsAreTransform(block, st, State(a, b, c, d));
        st := State(Added(a, st.a), Added(b, st.b), Added(c, st.c), Added(d, st.d));
        ChainOne(saved, data[ptr..]);
        assert data[ptr..][..64] == block && data[ptr..][64..] == data[ptr + 64..];
        ptr := ptr + 64;
        if ptr == |data| {
          break;
        }
      }
    }
  }

  // ----- Counting bytes -----

  function LowCount(length: nat): nat {
    length % 0x2000_0000
  }

  function HighCount(length: nat): nat {
    length / 0x2000_0000 % 0x1_0000_0000
  }

  lemma ModOfMod(n: nat)
    ensures n % 0x1_0000_0000_0000_0000 % 0x2000_0000 == n % 0x2000_0000
  {
    var k, m := n / 0x1_0000_0000_0000_0000, n % 0x1_0000_0000_0000_0000;
    RemainderIs(n, 0x8_0000_0000 * k + m / 0x2000_0000, m % 0x2000_0000);
  }

  lemma RemainderIs(n: nat, q: nat, r: nat)
    requires n == 0x2000_0000 * q + r && r < 0x2000_0000
    ensures n % 0x2000_0000 == r
  {
  }

  lemma CarryInto(length: nat, size: nat)
    ensures var carry := if length % 0x2000_0000 + size % 0x2000_0000 >= 0x2000_0000 then 1 else 0;
            && (length % 0x2000_0000 + size) % 0x2000_0000 ==
               length % 0x2000_0000 + size % 0x2000_0000 - 0x2000_0000 * carry == (length + size) % 0x2000_0000
            && (length + size) / 0x2000_0000 == length / 0x2000_0000 + size / 0x2000_0000 + carry
  {
  }

  lemma CarryModulo(q: nat, carry: nat, q': nat)
    requires carry <= 1
    ensures ((if carry == 1 then (q % 0x1_0000_0000 + 1) % 0x1_0000_0000 else q % 0x1_0000_0000)
            + q') % 0x1_0000_0000 ==
            (q + q' + carry) % 0x1_0000_0000
  {
  }

  /** The carry out of the low part shows in its having become smaller. */
  lemma CountAdds(length: nat, size: nat)
    ensures AddLow(LowCount(length), size) == LowCount(length + size)
    ensures AddHigh(LowCount(length), HighCount(length), size) == HighCount(length + size)
  {
    var low := length % 0x2000_0000;
    var carry := if low + size % 0x2000_0000 >= 0x2000_0000 then 1 else 0;
    ModOfMod(low + size);
    CarryInto(length, size);
    CarryModulo(length / 0x2000_0000, carry, size / 0x2000_0000);
    assert AddLow(low, size) < low <==> carry == 1;
  }

  /** The new low part of the count: a 64-bit sum, cut to 29 bits. */
  function AddLow(low: nat, size: nat): nat {
    (low + size) % 0x1_0000_0000_0000_0000 % 0x2000_0000
  }

  /** The new high part: the carry, and what of `size` is above 29 bits. */
  function AddHigh(low: nat, high: nat, size: nat): nat {
    ((if AddLow(low, size) < low then (high + 1) % 0x1_0000_0000 else high) + size / 0x2000_0000) % 0x1_0000_0000
  }

  lemma UsedIsLeftOver(length: nat)
    ensures LowCount(length) % 64 == LeftOver(length)
  {
  }

  // ----- Where a message is cut -----

  lemma CutsOf(message: seq<byte>)
    ensures var done := |message| - LeftOver(|message|);
            && done % 64 == 0 && WholeBlocks(message) == message[..done] && |WholeBlocks(message)| == done
            && Tail(message) == message[done..]
    ensures LeftOver(|message|) == 0 ==> WholeBlocks(message) == message
  {
  }

  lemma BlocksFollow(message: seq<byte>, done: nat, rest: seq<byte>, whole: nat)
    requires done <= |message| && rest == message[done..] && whole <= |rest|
    ensures message[..done] + rest[..whole] == message[..done + whole]
    ensures rest[whole..] == message[done + whole..]
  {
  }

  lemma LastCut(message: seq<byte>, done: nat, rest: seq<byte>)
    requires done <= |message| && rest == message[done..] && |rest| < 64 && done % 64 == 0
    ensures WholeBlocks(message) == message[..done] && Tail(message) == rest && |rest| == LeftOver(|message|)
  {
  }

  lemma StillInBuffer(before: seq<byte>, data: seq<byte>)
    requires LeftOver(|before|) + |data| < 64
    ensures WholeBlocks(before + data) == WholeBlocks(before)
    ensures Tail(before + data) == Tail(before) + data
    ensures LeftOver(|before + data|) == LeftOver(|before|) + |data|
  {
  }

  lemma FirstBlockFills(before: seq<byte>, data: seq<byte>, block: seq<byte>)
    requires 0 < LeftOver(|before|) && 64 <= LeftOver(|before|) + |data|
    requires block == Tail(before) + data[..64 - LeftOver(|before|)]
    ensures var done := |before| + 64 - LeftOver(|before|);
            && done % 64 == 0 && |block| == 64
            && WholeBlocks(before) + block == (before + data)[..done]
            && data[64 - LeftOver(|before|)..] == (before + data)[done..]
  {
  }

  // ----- Padding -----

  /** The tail of the message and its padding, in one or two blocks; `length` are the
      bytes of the length. */
  ghost predicate IsPadded(message: seq<byte>, length: seq<byte>, first: seq<byte>, last: seq<byte>) {
    var used := LeftOver(|message|) + 1;
    if used <= 56 then first == [] && last == Tail(message) + [0x80] + Zeros(56 - used) + length
    else first == Tail(message) + [0x80] + Zeros(64 - used) && last == Zeros(56) + length
  }

  /** The same without the length: `front` is what is in the buffer before it. */
  ghost predicate PadsTail(message: seq<byte>, first: seq<byte>, front: seq<byte>) {
    var used := LeftOver(|message|) + 1;
    if used <= 56 then first == [] && front == Tail(message) + [0x80] + Zeros(56 - used)
    else first == Tail(message) + [0x80] + Zeros(64 - used) && front == Zeros(56)
  }

  lemma PaddedByParts(message: seq<byte>, length: seq<byte>, first: seq<byte>, front: seq<byte>, last: seq<byte>)
    requires PadsTail(message, first, front) && last == front + length
    ensures IsPadded(message, length, first, last)
  {
  }

  lemma PaddingFills(message: seq<byte>, length: seq<byte>, first: seq<byte>, last: seq<byte>)
    requires IsPadded(message, length, first, last)
    ensures first + last == Tail(message) + PaddingBefore(|message|, length)
  {
    hide Zeros, LeftOver, Tail;
    var used := LeftOver(|message|) + 1;
    ZerosInPadding(|message|);
    if used <= 56 {
      OneBlock(Tail(message), Zeros(56 - used), length);
    } else {
      TwoBlocks(Tail(message), Zeros(64 - used), Zeros(56), length);
    }
  }

  lemma OneBlock(tail: seq<byte>, zeros: seq<byte>, length: seq<byte>)
    ensures [] + (tail + [0x80] + zeros + length) == tail + ([0x80] + zeros + length)
  {
  }

  lemma TwoBlocks(tail: seq<byte>, zeros: seq<byte>, more: seq<byte>, length: seq<byte>)
    ensures (tail + [0x80] + zeros) + (more + length) == tail + ([0x80] + (zeros + more) + length)
  {
  }

  lemma ZerosInPadding(length: nat)
    ensures var used := LeftOver(length) + 1;
            Zeros((55 - length) % 64) == if used <= 56 then Zeros(56 - used) else Zeros(64 - used) + Zeros(56)
  {
    var used := LeftOver(length) + 1;
    assert (55 - length) % 64 == if used <= 56 then 56 - used else 120 - used;
  }

  /** Whatever is appended to a message, it can be chained after the whole blocks in
      two pieces. */
  lemma ChainInPieces(message: seq<byte>, pad: seq<byte>, first: seq<byte>, last: seq<byte>)
    requires first + last == Tail(message) + pad && |first| % 64 == 0
    ensures Chain(INITIAL, message + pad) == Chain(Chain(Chain(INITIAL, WholeBlocks(message)), first), last)
  {
    hide Chain;
    CutsOf(message);
    assert message + pad == WholeBlocks(message) + (Tail(message) + pad);
    ChainConcat(INITIAL, WholeBlocks(message), first + last);
    ChainConcat(Chain(INITIAL, WholeBlocks(message)), first, last);
  }

  /** The two parts of the count, shifted by three bits, hold the length in bits
      modulo 2^64: they have the same bytes. */
  lemma LengthBytes(length: nat)
    ensures var low, high, n := LowCount(length) * 8 % 0x1_0000_0000, HighCount(length), 8 * length;
            && SameBytes(low, n) && SameBytes(high, n / 0x1_0000_0000)
  {
    var low, high, n := LowCount(length) * 8 % 0x1_0000_0000, HighCount(length), 8 * length;
    ShiftedCount(length);
    LowBytes(n);
    LowBytes(n / 0x1_0000_0000);
  }

  lemma LengthWritten(length: nat)
    ensures var lo, hi := LowCount(length) * 8 % 0x1_0000_0000, HighCount(length);
            [ByteOf(lo), ByteOf(lo / 0x100), ByteOf(lo / 0x1_0000), ByteOf(lo / 0x100_0000),
             ByteOf(hi), ByteOf(hi / 0x100), ByteOf(hi / 0x1_0000), ByteOf(hi / 0x100_0000)]
            == LittleEndian64(8 * length)
  {
    var lo, hi, n := LowCount(length) * 8 % 0x1_0000_0000, HighCount(length), 8 * length;
    LengthBytes(length);
    HighBytes(n);
    hide LowCount, HighCount;
    BytesOfSame(lo, n);
    BytesOfSame(hi, n / 0x1_0000_0000);
    hide ByteOf, SameBytes;
  }

  lemma BytesOfSame(m: nat, n: nat)
    requires SameBytes(m, n)
    ensures ByteOf(m) == ByteOf(n) && ByteOf(m / 0x100) == ByteOf(n / 0x100)
    ensures ByteOf(m / 0x1_0000) == ByteOf(n / 0x1_0000) && ByteOf(m / 0x100_0000) == ByteOf(n / 0x100_0000)
  {
  }

  /** The four low-order bytes of two numbers are the same. */
  predicate SameBytes(m: nat, n: nat) {
    && m % 0x100 == n % 0x100
    && m / 0x100 % 0x100 == n / 0x100 % 0x100
    && m / 0x1_0000 % 0x100 == n / 0x1_0000 % 0x100
    && m / 0x100_0000 % 0x100 == n / 0x100_0000 % 0x100
  }

  lemma ShiftedCount(length: nat)
    ensures LowCount(length) * 8 % 0x1_0000_0000 == 8 * length % 0x1_0000_0000
    ensures HighCount(length) == 8 * length / 0x1_0000_0000 % 0x1_0000_0000
  {
  }

  lemma LowBytes(n: nat)
    ensures SameBytes(n % 0x1_0000_0000, n)
  {
    var low, q := n % 0x1_0000_0000, n / 0x1_0000_0000;
    FirstByte(q, low);
    SecondByte(q, low);
    ThirdByte(q, low);
    FourthByte(q, low);
    assert n == q * 0x1_0000_0000 + low;
  }

  lemma FirstByte(q: nat, low: nat)
    ensures (q * 0x1_0000_0000 + low) % 0x100 == low % 0x100
  {
  }

  lemma LastByte(q: nat, b: nat)
    ensures (q * 0x100 + b) % 0x100 == b % 0x100
  {
  }

  lemma SecondByte(q: nat, low: nat)
    ensures (q * 0x1_0000_0000 + low) / 0x100 % 0x100 == low / 0x100 % 0x100
  {
    assert (q * 0x1_0000_0000 + low) / 0x100 == (q * 0x1_0000) * 0x100 + low / 0x100;
    LastByte(q * 0x1_0000, low / 0x100);
  }

  lemma ThirdByte(q: nat, low: nat)
    ensures (q * 0x1_0000_0000 + low) / 0x1_0000 % 0x100 == low / 0x1_0000 % 0x100
  {
    assert (q * 0x1_0000_0000 + low) / 0x1_0000 == (q * 0x100) * 0x100 + low / 0x1_0000;
    LastByte(q * 0x100, low / 0x1_0000);
  }

  lemma FourthByte(q: nat, low: nat)
    ensures (q * 0x1_0000_0000 + low) / 0x100_0000 % 0x100 == low / 0x100_0000 % 0x100
  {
    assert (q * 0x1_0000_0000 + low) / 0x100_0000 == q * 0x100 + low / 0x100_0000;
    LastByte(q, low / 0x100_0000);
  }

  lemma HighBytes(n: nat)
    ensures n / 0x1_0000_0000 / 0x100 == n / 0x100_0000_0000
    ensures n / 0x1_0000_0000 / 0x1_0000 == n / 0x1_0000_0000_0000
    ensures n / 0x1_0000_0000 / 0x100_0000 == n / 0x100_0000_0000_0000
  {
  }

  lemma RoundsAreTransform(block: seq<byte>, st: State, end: State)
    requires |block| == 64
    requires end ==
             Operations(3, 16, block, Operations(2, 16, block, Operations(1, 16, block, Operations(0, 16, block, st))))
    ensures State(Added(end.a, st.a), Added(end.b, st.b), Added(end.c, st.c), Added(end.d, st.d))
            == Transform(st, block)
  {
    hide Operations, Added, Plus;
    FourRounds(block, st);
    AddedIsPlus(end.a, st.a);
    AddedIsPlus(end.b, st.b);
    AddedIsPlus(end.c, st.c);
    AddedIsPlus(end.d, st.d);
  }

  lemma FourRounds(block: seq<byte>, st: State)
    requires |block| == 64
    ensures Rounds(4, block, st) ==
            Operations(3, 16, block, Operations(2, 16, block, Operations(1, 16, block, Operations(0, 16, block, st))))
  {
    hide Operations;
    assert Rounds(1, block, st) == Operations(0, 16, block, st);
    assert Rounds(2, block, st) == Operations(1, 16, block, Rounds(1, block, st));
    assert Rounds(3, block, st) == Operations(2, 16, block, Rounds(2, block, st));
  }

  // ----- Whole messages -----

  function Flatten(chunks: seq<seq<byte>>): seq<byte> {
    if chunks == [] then [] else Flatten(chunks[..|chunks| - 1]) + chunks[|chunks| - 1]
  }

  /** However a message is cut into chunks, the digest is that of the whole. */
  method DigestOfChunks(chunks: seq<seq<byte>>) returns (digest: seq<byte>)
    requires forall k :: 0 <= k < |chunks| ==> |chunks[k]| < 0x1_0000_0000_0000_0000
    ensures digest == Digest(Flatten(chunks))
  {
    hide Digest, Md5.Valid;
    var md5 := new Md5();
    for k := 0 to |chunks|
      invariant md5.Valid() && fresh(md5) && fresh(md5.buffer)
      invariant md5.message == Flatten(chunks[..k])
    {
      assert chunks[..k + 1][..k] == chunks[..k];
      md5.Update(chunks[k]);
    }
    assert chunks[..|chunks|] == chunks;
    digest := md5.Finalize();
  }

  function HexDigit(n: nat): char
    requires n < 16
  {
    "0123456789abcdef"[n]
  }

  /** The digit two characters stand for, in lower case. */
  function HexValue(c: char): int {
    if '0' <= c <= '9' then c as int - '0' as int
    else if 'a' <= c <= 'f' then c as int - 'a' as int + 10
    else -1
  }

  lemma HexRoundTrip(n: nat)
    requires n < 16
    ensures HexValue(HexDigit(n)) == n && ('0' <= HexDigit(n) <= '9' || 'a' <= HexDigit(n) <= 'f')
  {
  }

  /** Two lower-case hexadecimal digits for each byte. */
  ghost predicate IsHexOf(s: string, data: seq<byte>) {
    if data == [] then s == ""
    else
      && |s| >= 2
      && IsHexPair(s[|s| - 2], s[|s| - 1], data[|data| - 1] as int)
      && IsHexOf(s[..|s| - 2], data[..|data| - 1])
  }

  ghost predicate IsHexPair(c: char, d: char, n: int) {
    HexValue(c) >= 0 && HexValue(d) >= 0 && HexValue(c) * 16 + HexValue(d) == n
  }

  lemma HexSnoc(s: string, data: seq<byte>, c: char, d: char, b: byte)
    requires IsHexOf(s, data) && IsHexPair(c, d, b as int)
    ensures IsHexOf(s + [c, d], data + [b])
  {
    hide IsHexPair;
    assert (s + [c, d])[..|s + [c, d]| - 2] == s && (data + [b])[..|data + [b]| - 1] == data;
  }

  method ToString(data: seq<byte>) returns (s: string)
    ensures IsHexOf(s, data)
  {
    s := "";
    for i := 0 to |data|
      invariant IsHexOf(s, data[..i])
    {
      hide IsHexOf, HexValue, HexDigit;
      var n := data[i] as nat;
      HexRoundTrip(n / 16);
      HexRoundTrip(n % 16);
      HexSnoc(s, data[..i], HexDigit(n / 16), HexDigit(n % 16), data[i]);
      assert data[..i + 1] == data[..i] + [data[i]];
      s := s + [HexDigit(n / 16), HexDigit(n % 16)];
    }
    assert data[..|data|] == data;
  }

  method CreateMd5String(data: seq<byte>) returns (s: string)
    requires |data| < 0x1_0000_0000_0000_0000
    ensures IsHexOf(s, Digest(data))
  {
    hide Digest, Md5.Valid;
    var md5 := new Md5();
    md5.Update(data);
    assert [] + data == data;
    var hash := md5.Finalize();
    s := ToString(hash);
  }
}
