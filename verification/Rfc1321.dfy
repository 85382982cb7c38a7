/** The MD5 message digest as RFC 1321 defines it: padding (section 3.1), length
    (3.2), initial state (3.3), the transformation of a block (3.4) and the
    output (3.5). */
module Rfc1321 {

  type byte = bv8
  type bits32 = bv32

  /** A 32-bit register.  The wrapping keeps the solver from looking at bits where
      only the order of the operations matters. */
  datatype Word = Word(bits: bits32)

  datatype State = State(a: Word, b: Word, c: Word, d: Word)

  // ----- Section 3.3 -----

  const INITIAL: State := State(Word(0x67452301), Word(0xefcdab89), Word(0x98badcfe), Word(0x10325476))

  // ----- Section 3.4 -----

  function F(x: Word, y: Word, z: Word): Word { Word((x.bits & y.bits) | (!x.bits & z.bits)) }
  function G(x: Word, y: Word, z: Word): Word { Word((x.bits & z.bits) | (y.bits & !z.bits)) }
  function H(x: Word, y: Word, z: Word): Word { Word(x.bits ^ y.bits ^ z.bits) }
  function I(x: Word, y: Word, z: Word): Word { Word(y.bits ^ (x.bits | !z.bits)) }

  function RotateLeft(x: Word, s: nat): Word
    requires s <= 32
  {
    Word(x.bits.RotateLeft(s))
  }

  /** The auxiliary function of round `r`. */
  function Aux(r: nat, x: Word, y: Word, z: Word): Word {
    if r == 0 then F(x, y, z) else if r == 1 then G(x, y, z) else if r == 2 then H(x, y, z) else I(x, y, z)
  }

  /** The word of the block that operation `j` of round `r` uses. */
  function WordIndex(r: nat, j: nat): nat {
    if r == 0 then j % 16 else if r == 1 then (1 + 5 * j) % 16 else if r == 2 then (5 + 3 * j) % 16 else (7 * j) % 16
  }

  /** How far operation `j` of round `r` rotates. */
  function Shift(r: nat, j: nat): (s: nat)
    ensures 0 < s < 32
  {
    var k := j % 4;
    if r == 0 then (if k == 0 then 7 else if k == 1 then 12 else if k == 2 then 17 else 22)
    else if r == 1 then (if k == 0 then 5 else if k == 1 then 9 else if k == 2 then 14 else 20)
    else if r == 2 then (if k == 0 then 4 else if k == 1 then 11 else if k == 2 then 16 else 23)
    else (if k == 0 then 6 else if k == 1 then 10 else if k == 2 then 15 else 21)
  }

  /** The table T, 16 entries a round. */
  function T(r: nat, j: nat): bits32 {
    if r == 0 then
      match j
      case 0 => 0xd76aa478 case 1 => 0xe8c7b756 case 2 => 0x242070db case 3 => 0xc1bdceee
      case 4 => 0xf57c0faf case 5 => 0x4787c62a case 6 => 0xa8304613 case 7 => 0xfd469501
      case 8 => 0x698098d8 case 9 => 0x8b44f7af case 10 => 0xffff5bb1 case 11 => 0x895cd7be
      case 12 => 0x6b901122 case 13 => 0xfd987193 case 14 => 0xa679438e case _ => 0x49b40821
    else if r == 1 then
      match j
      case 0 => 0xf61e2562 case 1 => 0xc040b340 case 2 => 0x265e5a51 case 3 => 0xe9b6c7aa
      case 4 => 0xd62f105d case 5 => 0x02441453 case 6 => 0xd8a1e681 case 7 => 0xe7d3fbc8
      case 8 => 0x21e1cde6 case 9 => 0xc33707d6 case 10 => 0xf4d50d87 case 11 => 0x455a14ed
      case 12 => 0xa9e3e905 case 13 => 0xfcefa3f8 case 14 => 0x676f02d9 case _ => 0x8d2a4c8a
    else if r == 2 then
      match j
      case 0 => 0xfffa3942 case 1 => 0x8771f681 case 2 => 0x6d9d6122 case 3 => 0xfde5380c
      case 4 => 0xa4beea44 case 5 => 0x4bdecfa9 case 6 => 0xf6bb4b60 case 7 => 0xbebfbc70
      case 8 => 0x289b7ec6 case 9 => 0xeaa127fa case 10 => 0xd4ef3085 case 11 => 0x04881d05
      case 12 => 0xd9d4d039 case 13 => 0xe6db99e5 case 14 => 0x1fa27cf8 case _ => 0xc4ac5665
    else
      match j
      case 0 => 0xf4292244 case 1 => 0x432aff97 case 2 => 0xab9423a7 case 3 => 0xfc93a039
      case 4 => 0x655b59c3 case 5 => 0x8f0ccc92 case 6 => 0xffeff47d case 7 => 0x85845dd1
      case 8 => 0x6fa87e4f case 9 => 0xfe2ce6e0 case 10 => 0xa3014314 case 11 => 0x4e0811a1
      case 12 => 0xf7537e82 case 13 => 0xbd3af235 case 14 => 0x2ad7d2bb case _ => 0xeb86d391
  }

  /** A block of 64 bytes as 16 words, low-order byte first. */
  function Decode(bytes: seq<byte>, k: nat): Word
    requires 4 * k + 4 <= |bytes|
  {
    Word((bytes[4 * k] as bits32) + ((bytes[4 * k + 1] as bits32) << 8)
         + ((bytes[4 * k + 2] as bits32) << 16) + ((bytes[4 * k + 3] as bits32) << 24))
  }

  /** `b + ((a + f + x + t) <<< s)` */
  function NewRegister(f: Word, a: Word, b: Word, x: Word, t: bits32, s: nat): Word
    requires s <= 32
  {
    Plus(b, RotateLeft(Sum(a, f, x, t), s))
  }

  function Plus(x: Word, y: Word): Word {
    Word(x.bits + y.bits)
  }

  function Sum(a: Word, f: Word, x: Word, t: bits32): Word {
    Word(a.bits + f.bits + x.bits + t)
  }

  /** `a = b + ((a + f(b, c, d) + X[k] + T[i]) <<< s)`, and the registers move on by one. */
  function Operation(r: nat, j: nat, block: seq<byte>, st: State): State
    requires j < 16 && |block| == 64
  {
    var new' := NewRegister(Aux(r, st.b, st.c, st.d), st.a, st.b, Decode(block, WordIndex(r, j)), T(r, j), Shift(r, j));
    State(st.d, new', st.b, st.c)
  }

  /** The first `j` operations of round `r`. */
  function Operations(r: nat, j: nat, block: seq<byte>, st: State): State
    requires j <= 16 && |block| == 64
  {
    if j == 0 then st else Operation(r, j - 1, block, Operations(r, j - 1, block, st))
  }

  function Add(s: State, t: State): State {
    State(Plus(s.a, t.a), Plus(s.b, t.b), Plus(s.c, t.c), Plus(s.d, t.d))
  }

  /** The first `r` rounds, an operation for each word of the block. */
  function Rounds(r: nat, block: seq<byte>, st: State): State
    requires |block| == 64
  {
    if r == 0 then st else Operations(r - 1, |block| / 4, block, Rounds(r - 1, block, st))
  }

  function Transform(st: State, block: seq<byte>): State
    requires |block| == 64
  {
    Add(st, Rounds(4, block, st))
  }

  /** All full blocks of `data`, one after the other. */
  function Chain(st: State, data: seq<byte>): State
    decreases |data|
  {
    if |data| < 64 then st else Chain(Transform(st, data[..64]), data[64..])
  }

  // ----- Sections 3.1 and 3.2 -----

  function ByteOf(n: nat): byte {
    (n % 0x100) as byte
  }

  /** A number as 8 bytes, low-order byte first. */
  function LittleEndian64(n: nat): (r: seq<byte>)
    ensures |r| == 8
  {
    [ByteOf(n), ByteOf(n / 0x100), ByteOf(n / 0x1_0000), ByteOf(n / 0x100_0000),
     ByteOf(n / 0x1_0000_0000), ByteOf(n / 0x100_0000_0000), ByteOf(n / 0x1_0000_0000_0000),
         ByteOf(n / 0x100_0000_0000_0000)]
  }

  function Zeros(n: nat): (z: seq<byte>)
    ensures |z| == n
  {
    seq(n, _ => 0)
  }

  /** A one bit, zero bits up to 448 bits modulo 512, and then the bytes of the length. */
  function PaddingBefore(length: nat, lengthBytes: seq<byte>): seq<byte> {
    [0x80] + Zeros((55 - length) % 64) + lengthBytes
  }

  /** The padding with the length in bits modulo 2^64. */
  function Padding(length: nat): seq<byte> {
    PaddingBefore(length, LittleEndian64(8 * length))
  }

  // ----- Section 3.5 -----

  function LowByte(w: bits32): byte {
    (w & 0xff) as byte
  }

  function EncodeWord(w: Word): seq<byte> {
    [LowByte(w.bits), LowByte(w.bits >> 8), LowByte(w.bits >> 16), LowByte(w.bits >> 24)]
  }

  function Encode(st: State): seq<byte> {
    EncodeWord(st.a) + EncodeWord(st.b) + EncodeWord(st.c) + EncodeWord(st.d)
  }

  /** The output is low-order byte first, as the input is. */
  lemma EncodeWordIsDecoded(w: Word)
    ensures |EncodeWord(w)| == 4 && Decode(EncodeWord(w), 0) == w
  {
    assert ((w.bits & 0xff) as byte) as bits32 == w.bits & 0xff;
  }

  /** The four words of the output are the four registers, in order. */
  lemma EncodedWords(st: State)
    ensures var bytes := Encode(st);
            && |bytes| == 16
            && Decode(bytes, 0) == st.a && Decode(bytes, 1) == st.b
            && Decode(bytes, 2) == st.c && Decode(bytes, 3) == st.d
  {
    EncodeWordIsDecoded(st.a);
    EncodeWordIsDecoded(st.b);
    EncodeWordIsDecoded(st.c);
    EncodeWordIsDecoded(st.d);
    hide EncodeWord;
  }

  /** The initial state, as section 3.3 writes it: low-order byte first. */
  lemma InitialBytes()
    ensures Encode(INITIAL) == [0x01, 0x23, 0x45, 0x67, 0x89, 0xab, 0xcd, 0xef,
                                0xfe, 0xdc, 0xba, 0x98, 0x76, 0x54, 0x32, 0x10]
  {
  }

  /** The padding is one bit and zeros. */
  lemma PaddingBytes(length: nat, lengthBytes: seq<byte>, k: nat)
    requires k < |PaddingBefore(length, lengthBytes)| - |lengthBytes|
    ensures PaddingBefore(length, lengthBytes)[k] == if k == 0 then 0x80 else 0
  {
  }

  lemma RemainderIs(n: nat, m: nat, q: nat, r: nat)
    requires r < m && n == m * q + r
    ensures n % m == r
  {
    var d: int := n / m - q;
    assert m * d == r - n % m;
    assert d >= 1 ==> m * d >= m;
    assert d <= -1 ==> m * d + m <= 0;
  }

  /** One more digit to the base 256, of weight `m`. */
  lemma NextDigit(n: nat, m: nat)
    requires m > 0
    ensures n % (0x100 * m) == n % m + m * (n / m % 0x100)
  {
    var q: nat := n / m;
    Weighted(m, q / 0x100, q % 0x100);
    RemainderIs(n, 0x100 * m, q / 0x100, m * (q % 0x100) + n % m);
  }

  lemma Weighted(m: nat, high: nat, digit: nat)
    requires digit < 0x100
    ensures m * (0x100 * high + digit) == 0x100 * m * high + m * digit
    ensures m * digit <= 0xff * m
  {
  }

  /** The digits of a number to the base 256, low-order digit first. */
  ghost function Digits(n: nat): (d: seq<nat>)
    ensures |d| == 8 && forall k :: 0 <= k < 8 ==> d[k] < 0x100
  {
    [n % 0x100, n / 0x100 % 0x100, n / 0x1_0000 % 0x100, n / 0x100_0000 % 0x100,
     n / 0x1_0000_0000 % 0x100, n / 0x100_0000_0000 % 0x100, n / 0x1_0000_0000_0000 % 0x100,
         n / 0x100_0000_0000_0000 % 0x100]
  }

  lemma LowDigits(n: nat)
    ensures var d := Digits(n);
            d[0] + 0x100 * d[1] + 0x1_0000 * d[2] + 0x100_0000 * d[3] == n % 0x1_0000_0000
  {
    NextDigit(n, 0x100);
    NextDigit(n, 0x1_0000);
    NextDigit(n, 0x100_0000);
  }

  lemma HighDigits(n: nat)
    ensures var d := Digits(n);
            n % 0x1_0000_0000 + 0x1_0000_0000 * d[4] + 0x100_0000_0000 * d[5] + 0x1_0000_0000_0000 * d[6]
            + 0x100_0000_0000_0000 * d[7] == n % 0x1_0000_0000_0000_0000
  {
    NextDigit(n, 0x1_0000_0000);
    NextDigit(n, 0x100_0000_0000);
    NextDigit(n, 0x1_0000_0000_0000);
    NextDigit(n, 0x100_0000_0000_0000);
  }

  /** The eight bytes are digits `d`, the k-th with the weight 256^k, of the number modulo 2^64. */
  lemma LengthIsRead(n: nat) returns (d: seq<nat>)
    ensures |d| == 8 && forall k :: 0 <= k < 8 ==> d[k] < 0x100 && LittleEndian64(n)[k] == d[k] as byte
    ensures d[0] + 0x100 * d[1] + 0x1_0000 * d[2] + 0x100_0000 * d[3] + 0x1_0000_0000 * d[4]
            + 0x100_0000_0000 * d[5] + 0x1_0000_0000_0000 * d[6] + 0x100_0000_0000_0000 * d[7]
            == n % 0x1_0000_0000_0000_0000
  {
    d := Digits(n);
    hide Digits, LittleEndian64, ByteOf;
    BytesAreDigits(n);
    LowDigits(n);
    HighDigits(n);
    forall k | 0 <= k < 8
      ensures LittleEndian64(n)[k] == d[k] as byte
    {
      ByteOfDigit(d[k]);
    }
  }

  lemma BytesAreDigits(n: nat)
    ensures forall k :: 0 <= k < 8 ==> LittleEndian64(n)[k] == ByteOf(Digits(n)[k])
  {
    hide ByteOf;
    ByteOfRest(n);
    ByteOfRest(n / 0x100);
    ByteOfRest(n / 0x1_0000);
    ByteOfRest(n / 0x100_0000);
    ByteOfRest(n / 0x1_0000_0000);
    ByteOfRest(n / 0x100_0000_0000);
    ByteOfRest(n / 0x1_0000_0000_0000);
    ByteOfRest(n / 0x100_0000_0000_0000);
  }

  lemma ByteOfRest(n: nat)
    ensures ByteOf(n) == ByteOf(n % 0x100)
  {
  }

  lemma ByteOfDigit(d: nat)
    requires d < 0x100
    ensures ByteOf(d) == d as byte
  {
  }

  /** Whatever the eight bytes of the length are, the padded message is a whole number
      of blocks. */
  lemma PaddedLength(length: nat, lengthBytes: seq<byte>)
    requires |lengthBytes| == 8
    ensures (length + |PaddingBefore(length, lengthBytes)|) % 64 == 0
    ensures 9 <= |PaddingBefore(length, lengthBytes)| <= 72
  {
  }

  /** Chaining takes whole blocks only, and that is all of the padded message. */
  function Digest(message: seq<byte>): seq<byte> {
    PaddedLength(|message|, LittleEndian64(8 * |message|));
    assert |message + Padding(|message|)| % 64 == 0;
    Encode(Chain(INITIAL, message + Padding(|message|)))
  }
}
