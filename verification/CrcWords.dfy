/** The same CRC on machine words: the driver's own operations on 32-bit vectors, and the
    values of its constants. */
module CrcWords {
  import opened Crc32

  // ----- The bits of a vector. The vector operations are behind names, one fact a lemma.

  predicate Odd(x: bv32) { x & 1 == 1 }

  function Half(x: bv32): bv32 { x >> 1 }

  predicate IsXor(z: bv32, x: bv32, y: bv32) { z == x ^ y }

  /** The low k bits, lowest first. */
  function VectorBits(x: bv32, k: nat): (r: seq<bool>)
    ensures |r| == k
    decreases k
  {
    if k == 0 then [] else [Odd(x)] + VectorBits(Half(x), k - 1)
  }

  function Word32(x: bv32): Word { VectorBits(x, 32) }

  lemma XorHalf(z: bv32, x: bv32, y: bv32)
    requires IsXor(z, x, y)
    ensures Odd(z) == (Odd(x) != Odd(y)) && IsXor(Half(z), Half(x), Half(y))
  {
  }

  lemma {:induction false} VectorXor(z: bv32, x: bv32, y: bv32, k: nat)
    requires IsXor(z, x, y)
    ensures VectorBits(z, k) == Xor(VectorBits(x, k), VectorBits(y, k))
    decreases k
  {
    hide Odd, Half, IsXor, Xor;
    if k == 0 {
      assert Xor([], []) == [] by { XorNone(); }
    } else {
      XorHalf(z, x, y);
      VectorXor(Half(z), Half(x), Half(y), k - 1);
      XorFirst(Odd(x), VectorBits(Half(x), k - 1), Odd(y), VectorBits(Half(y), k - 1));
    }
  }

  lemma XorNone()
    ensures Xor([], []) == []
  {
  }

  lemma XorFirst(a: bool, s: seq<bool>, b: bool, t: seq<bool>)
    requires |s| == |t|
    ensures Xor([a] + s, [b] + t) == [a != b] + Xor(s, t)
  {
  }

  function Halves(x: bv32, k: nat): bv32
    decreases k
  {
    if k == 0 then x else Halves(Half(x), k - 1)
  }

  lemma {:induction false} HalvesAdd(x: bv32, j: nat, k: nat)
    ensures Halves(x, j + k) == Halves(Halves(x, j), k)
    decreases j
  {
    hide Half;
    if j > 0 { HalvesAdd(Half(x), j - 1, k); }
  }

  lemma {:induction false} VectorSplit(x: bv32, j: nat, k: nat)
    ensures VectorBits(x, j + k) == VectorBits(x, j) + VectorBits(Halves(x, j), k)
    decreases j
  {
    hide Odd, Half;
    if j > 0 { VectorSplit(Half(x), j - 1, k); }
  }

  lemma HalvesNext(x: bv32, k: nat)
    ensures Halves(x, k + 1) == Halves(Half(x), k) && Halves(x, 0) == x
  {
    hide Half;
  }

  function Nibble(x: bv32): bv32 { x >> 4 }

  lemma FourHalves(x: bv32)
    ensures Half(Half(Half(Half(x)))) == Nibble(x)
  {
  }

  lemma HalvesFour(x: bv32, k: nat)
    ensures Halves(x, k + 4) == Halves(Nibble(x), k)
  {
    hide Halves, Half, Nibble;
    HalvesNext(x, k + 3);
    HalvesNext(Half(x), k + 2);
    HalvesNext(Half(Half(x)), k + 1);
    HalvesNext(Half(Half(Half(x))), k);
    FourHalves(x);
  }

  lemma ShiftOut(x: bv32)
    ensures Nibble(Nibble(Nibble(Nibble(Nibble(Nibble(Nibble(Nibble(x)))))))) == 0
  {
  }

  /** Nothing is left of a vector after 32 shifts. */
  lemma HalvesOut(x: bv32)
    ensures Halves(x, 32) == 0
  {
    hide Halves, Nibble;
    HalvesFour(x, 28);
    HalvesFour(Nibble(x), 24);
    HalvesFour(Nibble(Nibble(x)), 20);
    HalvesFour(Nibble(Nibble(Nibble(x))), 16);
    HalvesFour(Nibble(Nibble(Nibble(Nibble(x)))), 12);
    HalvesFour(Nibble(Nibble(Nibble(Nibble(Nibble(x))))), 8);
    HalvesFour(Nibble(Nibble(Nibble(Nibble(Nibble(Nibble(x)))))), 4);
    HalvesFour(Nibble(Nibble(Nibble(Nibble(Nibble(Nibble(Nibble(x))))))), 0);
    HalvesNext(0, 0);
    ShiftOut(x);
  }

  lemma {:induction false} ZeroBits(k: nat)
    ensures VectorBits(0, k) == Zeros(k)
  {
    if k > 0 { ZeroBits(k - 1); }
  }

  /** A shift of the vector is the shift of its bits. */
  lemma HalfBits(x: bv32)
    ensures Word32(Half(x)) == ShiftRight(Word32(x))
  {
    hide Odd, Half, Halves;
    HalvesOut(x);
    HalvesNext(x, 31);
    VectorSplit(Half(x), 31, 1);
    assert VectorBits(0, 1) == [false] by { ZeroBits(1); }
    assert VectorBits(x, 32) == [Odd(x)] + VectorBits(Half(x), 31);
  }

  // ----- Constants

  lemma VectorNext(x: bv32, k: nat)
    ensures VectorBits(x, k + 1) == [Odd(x)] + VectorBits(Half(x), k) && VectorBits(x, 0) == []
  {
    hide Odd, Half;
  }

  lemma Four(x: bv32, k: nat)
    ensures VectorBits(x, k + 4) ==
      [Odd(x), Odd(Half(x)), Odd(Half(Half(x))), Odd(Half(Half(Half(x))))] + VectorBits(Nibble(x), k)
  {
    hide Odd, Half, Nibble, VectorBits;
    VectorNext(x, k + 3);
    VectorNext(Half(x), k + 2);
    VectorNext(Half(Half(x)), k + 1);
    VectorNext(Half(Half(Half(x))), k);
    FourHalves(x);
  }

  lemma PolyVector()
    ensures Word32(0xEDB88320) == Poly()
  {
    hide VectorBits, Bits;
    Four(0xEDB88320, 28);
    Four(0xEDB8832, 24);
    Four(0xEDB883, 20);
    Four(0xEDB88, 16);
    Four(0xEDB8, 12);
    Four(0xEDB, 8);
    Four(0xED, 4);
    Four(0xE, 0);
    VectorNext(0, 0);
    LowHalf();
    HighHalf();
  }

  lemma OnesVector()
    ensures Word32(0xFFFFFFFF) == Ones()
  {
    hide VectorBits;
    Four(0xFFFFFFFF, 28);
    Four(0xFFFFFFF, 24);
    Four(0xFFFFFF, 20);
    Four(0xFFFFF, 16);
    Four(0xFFFF, 12);
    Four(0xFFF, 8);
    Four(0xFF, 4);
    Four(0xF, 0);
    VectorNext(0, 0);
  }

  // ----- The register

  function Feedback(x: bv32): bv32 { 0xEDB88320 & (0 - (x & 1)) }

  /** One turn of the inner loop, as the driver has it. */
  function Register(x: bv32): bv32 { (x >> 1) ^ (0xEDB88320 & (0 - (x & 1))) }

  lemma RegisterParts(x: bv32)
    ensures IsXor(Register(x), Half(x), Feedback(x)) && Feedback(x) == if Odd(x) then 0xEDB88320 else 0
  {
  }

  /** It is a step of the bits. */
  lemma RegisterBits(x: bv32)
    ensures Word32(Register(x)) == Step(Word32(x))
  {
    hide Register, Feedback, IsXor, Half, Odd, Poly, ShiftRight;
    RegisterParts(x);
    VectorXor(Register(x), Half(x), Feedback(x), 32);
    HalfBits(x);
    PolyVector();
    ZeroBits(32);
    VectorNext(x, 31);
    assert Word32(x)[0] == Odd(x);
    FeedbackBits(Word32(x));
  }

  lemma FeedbackBits(w: Word)
    ensures And(Poly(), Mask(w)) == if w[0] then Poly() else Zeros(32)
  {
    hide Poly;
  }

  function Registers(x: bv32, n: nat): bv32
    decreases n
  {
    if n == 0 then x else Registers(Register(x), n - 1)
  }

  lemma {:induction false} RegistersBits(x: bv32, n: nat)
    ensures Word32(Registers(x, n)) == Steps(Word32(x), n)
    decreases n
  {
    hide Register, Word32, Step;
    if n > 0 {
      RegisterBits(x);
      RegistersBits(Register(x), n - 1);
    }
  }

  lemma FourRegisters(x: bv32, k: nat)
    ensures Registers(x, k + 4) == Registers(Register(Register(Register(Register(x)))), k)
  {
    hide Register, Registers;
    RegistersNext(x, k + 3);
    RegistersNext(Register(x), k + 2);
    RegistersNext(Register(Register(x)), k + 1);
    RegistersNext(Register(Register(Register(x))), k);
  }

  lemma RegistersNext(x: bv32, k: nat)
    ensures Registers(x, k + 1) == Registers(Register(x), k) && Registers(x, 0) == x
  {
    hide Register;
  }

  lemma ResidueVector()
    ensures Registers(0xFFFFFFFF, 32) == 0xDEBB20E3
  {
    hide Registers;
    FourRegisters(0xFFFFFFFF, 28);
    FourRegisters(0xB2420DE3, 24);
    FourRegisters(0x2DFD1072, 20);
    FourRegisters(0x39B1F1CF, 16);
    FourRegisters(0xBE26ED00, 12);
    FourRegisters(0x0BE26ED0, 8);
    FourRegisters(0x00BE26ED, 4);
    FourRegisters(0x86D830BA, 0);
    assert Register(Register(Register(Register(0xFFFFFFFF)))) == 0xB2420DE3;
    assert Register(Register(Register(Register(0xB2420DE3)))) == 0x2DFD1072;
    assert Register(Register(Register(Register(0x2DFD1072)))) == 0x39B1F1CF;
    assert Register(Register(Register(Register(0x39B1F1CF)))) == 0xBE26ED00;
    assert Register(Register(Register(Register(0xBE26ED00)))) == 0x0BE26ED0;
    assert Register(Register(Register(Register(0x0BE26ED0)))) == 0x00BE26ED;
    assert Register(Register(Register(Register(0x00BE26ED)))) == 0x86D830BA;
    assert Register(Register(Register(Register(0x86D830BA)))) == 0xDEBB20E3;
    RegistersNext(0xDEBB20E3, 0);
  }

  lemma NotParts()
    ensures IsXor(0x2144DF1C, 0xDEBB20E3, 0xFFFFFFFF)
  {
  }

  /** The constant every intact frame checks to. */
  lemma ResidueValue()
    ensures Residue() == Word32(0x2144DF1C) == Bits(0x2144DF1C, 32)
  {
    hide VectorBits, Bits, Steps, Registers;
    OnesVector();
    RegistersBits(0xFFFFFFFF, 32);
    ResidueVector();
    NotParts();
    NotIsXor(Word32(0xDEBB20E3));
    VectorXor(0x2144DF1C, 0xDEBB20E3, 0xFFFFFFFF, 32);
    ResidueBits();
  }

  lemma NotIsXor(w: Word)
    ensures Not(w) == Xor(w, Ones())
  {
  }

  lemma ResidueBits()
    ensures Word32(0x2144DF1C) == Bits(0x2144DF1C, 32)
  {
    hide VectorBits, Bits;
    ResidueLow();
    ResidueLowBits();
    ResidueHigh();
  }

  lemma ResidueLow()
    ensures VectorBits(0x2144DF1C, 32) ==
      [false, false, true, true, true, false, false, false, true, true, true, true, true, false, true, true] +
      VectorBits(0x2144, 16)
  {
    hide VectorBits;
    Four(0x2144DF1C, 28);
    Four(0x2144DF1, 24);
    Four(0x2144DF, 20);
    Four(0x2144D, 16);
  }

  lemma ResidueLowBits()
    ensures Bits(0x2144DF1C, 32) ==
      [false, false, true, true, true, false, false, false, true, true, true, true, true, false, true, true] +
      Bits(0x2144, 16)
  {
    hide Bits;
    Crc32.Nibble(0x2144DF1C, 28);
    Crc32.Nibble(0x2144DF1, 24);
    Crc32.Nibble(0x2144DF, 20);
    Crc32.Nibble(0x2144D, 16);
  }

  lemma ResidueHigh()
    ensures VectorBits(0x2144, 16) == Bits(0x2144, 16)
  {
    hide VectorBits, Bits;
    Four(0x2144, 12);
    Crc32.Nibble(0x2144, 12);
    Four(0x214, 8);
    Crc32.Nibble(0x214, 8);
    Four(0x21, 4);
    Crc32.Nibble(0x21, 4);
    Four(0x2, 0);
    Crc32.Nibble(0x2, 0);
    VectorNext(0, 0);
    BitsNext(0, 0);
  }

  // ----- The loops on machine words

  method Turn(x: bv32) returns (y: bv32)
    ensures y == Register(x)
  {
    var mask: bv32 := 0 - (x & 1);
    y := (x >> 1) ^ (0xEDB88320 & mask);
  }

  method Add(x: bv32, byte: bv32) returns (y: bv32)
    ensures IsXor(y, x, byte)
  {
    y := x ^ byte;
  }

  method Complement(x: bv32) returns (y: bv32)
    ensures IsXor(y, x, 0xFFFFFFFF)
  {
    y := !x;
  }

  /** A byte: nothing behind its eight bits. */
  predicate IsByte(b: bv32) { b & 0xFF == b }

  function ByteBits(b: bv32): Byte { VectorBits(b, 8) }

  lemma ByteHalves(b: bv32)
    requires IsByte(b)
    ensures Nibble(Nibble(b)) == 0
  {
  }

  lemma ByteVector(b: bv32)
    requires IsByte(b)
    ensures Word32(b) == Widen(ByteBits(b))
  {
    hide VectorBits, Halves, Nibble;
    VectorSplit(b, 8, 24);
    HalvesFour(b, 4);
    HalvesFour(Nibble(b), 0);
    ByteHalves(b);
    HalvesNext(0, 0);
    ZeroBits(24);
  }

  function Message(bytes: seq<bv32>): (r: seq<Byte>)
    ensures |r| == |bytes| && forall i :: 0 <= i < |bytes| ==> r[i] == ByteBits(bytes[i])
  {
    seq(|bytes|, i requires 0 <= i < |bytes| => ByteBits(bytes[i]))
  }

  /** Takes in one byte: the inner loop. */
  method TakeByte(x: bv32, byte: bv32) returns (crc: bv32)
    requires IsByte(byte)
    ensures Word32(crc) == Update(Word32(x), ByteBits(byte))
  {
    hide Register, IsXor, Word32, Steps, Step, ByteBits, Widen, Xor, IsByte;
    crc := Add(x, byte);
    AddBits(crc, x, byte);
    ghost var first := Word32(crc);
    var j: int := 7;
    while j >= 0
      invariant -1 <= j <= 7 && Steps(Word32(crc), j + 1) == Steps(first, 8)
    {
      RegisterBits(crc);
      StepsNext(Word32(crc), j);
      crc := Turn(crc);
      j := j - 1;
    }
    StepsNext(Word32(crc), 0);
  }

  /** The driver's loops on words give the CRC of the bits. */
  method Compute(bytes: seq<bv32>) returns (r: bv32)
    requires forall i :: 0 <= i < |bytes| ==> IsByte(bytes[i])
    ensures Word32(r) == Crc(Message(bytes))
  {
    hide IsXor, Word32, Update, ByteBits, Ones, IsByte;
    ghost var m := Message(bytes);
    var crc: bv32 := 0xFFFFFFFF;
    OnesVector();
    var i := 0;
    while i < |bytes|
      invariant 0 <= i <= |bytes| && Word32(crc) == Fold(Ones(), m[..i])
    {
      assert m[..i + 1][..i] == m[..i];
      crc := TakeByte(crc, bytes[i]);
      i := i + 1;
    }
    assert m[..i] == m;
    r := Complement(crc);
    ComplementBits(r, crc);
  }

  lemma AddBits(z: bv32, x: bv32, byte: bv32)
    requires IsXor(z, x, byte) && IsByte(byte)
    ensures Word32(z) == Xor(Word32(x), Widen(ByteBits(byte)))
  {
    hide IsXor, IsByte, Xor, Widen, ByteBits, VectorBits;
    VectorXor(z, x, byte, 32);
    ByteVector(byte);
  }

  lemma ComplementBits(z: bv32, x: bv32)
    requires IsXor(z, x, 0xFFFFFFFF)
    ensures Word32(z) == Not(Word32(x))
  {
    hide IsXor, VectorBits;
    VectorXor(z, x, 0xFFFFFFFF, 32);
    OnesVector();
    NotIsXor(Word32(x));
  }

  lemma StepsNext(x: Word, k: nat)
    ensures Steps(x, k + 1) == Steps(Step(x), k) && Steps(x, 0) == x
  {
    hide Step;
  }

  // ----- The dividend

  /** Bit j of x. */
  predicate BitOf(x: bv32, j: nat) { Odd(Halves(x, j)) }

  lemma {:induction false} VectorAt(x: bv32, k: nat, j: nat)
    requires j < k
    ensures VectorBits(x, k)[j] == BitOf(x, j)
    decreases k
  {
    hide Odd, Half;
    if j > 0 { VectorAt(Half(x), k - 1, j - 1); }
  }

  lemma {:induction false} StreamAt(message: seq<Byte>, i: nat, j: nat)
    requires i < |message| && j < 8
    ensures 8 * i + j < |Stream(message)| && Stream(message)[8 * i + j] == message[i][j]
  {
    var n := |message| - 1;
    if i < n { StreamAt(message[..n], i, j); }
  }

  /** The bits of the bytes in the order they go over the wire: bit 8 * i + j is bit j of
      byte i. */
  ghost predicate WireBits(s: seq<bool>, bytes: seq<bv32>) {
    && |s| == 8 * |bytes|
    && forall i: nat, j: nat {:trigger BitOf(bytes[i], j)} :: i < |bytes| && j < 8 ==>
         s[8 * i + j] == BitOf(bytes[i], j)
  }

  lemma MessageBits(bytes: seq<bv32>)
    ensures WireBits(Stream(Message(bytes)), bytes)
  {
    hide VectorBits, Stream, BitOf;
    forall i: nat, j: nat | i < |bytes| && j < 8
      ensures Stream(Message(bytes))[8 * i + j] == BitOf(bytes[i], j)
    {
      StreamAt(Message(bytes), i, j);
      VectorAt(bytes[i], 8, j);
    }
  }

  lemma WireUnique(s: seq<bool>, t: seq<bool>, bytes: seq<bv32>)
    requires WireBits(s, bytes) && WireBits(t, bytes)
    ensures s == t
  {
    hide BitOf;
    forall k | 0 <= k < |s| ensures s[k] == t[k] {
      var i, j := k / 8, k % 8;
      assert k == 8 * i + j && i < |bytes|;
      assert s[8 * i + j] == BitOf(bytes[i], j);
    }
  }

  /** What `Compute` returns, by its bits: the complement of the remainder of the bytes as a
      polynomial, times x^32, with the first 32 bits complemented. */
  lemma ComputeDivides(bytes: seq<bv32>, s: seq<bool>, r: bv32)
    requires WireBits(s, bytes) && Word32(r) == Crc(Message(bytes))
    ensures Word32(r) == Not(Remainder(Mix(s + Zeros(32), Ones())))
  {
    hide VectorBits, Crc, Stream, WireBits, Remainder, Mix;
    MessageBits(bytes);
    WireUnique(s, Stream(Message(bytes)), bytes);
    CrcIsRemainder(Message(bytes));
  }

  // ----- The trailer

  lemma ClearLow(z: bv32)
    requires z & 0xFF == 0
    ensures !Odd(z) && !Odd(Half(z)) && !Odd(Half(Half(z))) && !Odd(Half(Half(Half(z))))
    ensures (z >> 4) & 0xF == 0
  {
  }

  lemma ClearNext(z: bv32)
    requires z & 0xF == 0
    ensures !Odd(z) && !Odd(Half(z)) && !Odd(Half(Half(z))) && !Odd(Half(Half(Half(z))))
  {
  }

  lemma ClearBits(z: bv32)
    requires z & 0xFF == 0
    ensures VectorBits(z, 8) == Zeros(8)
  {
    hide VectorBits, Odd, Half;
    ClearLow(z);
    ClearNext(Nibble(z));
    Four(z, 4);
    Four(Nibble(z), 0);
    VectorNext(Nibble(Nibble(z)), 0);
  }

  lemma MaskParts(y: bv32)
    ensures IsXor(y, y & 0xFF, y & 0xFFFFFF00) && (y & 0xFFFFFF00) & 0xFF == 0
  {
  }

  /** Masking off all but the low byte keeps the low byte. */
  lemma LowByte(y: bv32)
    ensures ByteBits(y & 0xFF) == ByteBits(y)
  {
    hide VectorBits, IsXor;
    MaskParts(y);
    VectorXor(y, y & 0xFF, y & 0xFFFFFF00, 8);
    ClearBits(y & 0xFFFFFF00);
    XorZeros(ByteBits(y & 0xFF));
  }

  lemma XorZeros(b: Byte)
    ensures Xor(b, Zeros(8)) == b
  {
  }

  lemma ByteShift(v: bv32)
    ensures (v & 0xFF00) >> 8 == Nibble(Nibble(v)) & 0xFF
    ensures (v & 0xFF0000) >> 16 == Nibble(Nibble(Nibble(Nibble(v)))) & 0xFF
    ensures (v & 0xFF000000) >> 24 == Nibble(Nibble(Nibble(Nibble(Nibble(Nibble(v)))))) & 0xFF
  {
  }

  /** Eight shifts further, the next byte. */
  lemma ByteAt(x: bv32, k: nat)
    ensures VectorBits(x, 8 + k) == ByteBits(x) + VectorBits(Nibble(Nibble(x)), k)
  {
    hide VectorBits, Halves, Nibble;
    VectorSplit(x, 8, k);
    HalvesFour(x, 4);
    HalvesFour(Nibble(x), 0);
    HalvesNext(Nibble(Nibble(x)), 0);
  }

  /** The four bytes the driver stores behind the frame are the bytes of the word, lowest first. */
  lemma TrailerBytes(v: bv32)
    ensures Message([v & 0xFF, (v & 0xFF00) >> 8, (v & 0xFF0000) >> 16, (v & 0xFF000000) >> 24]) ==
      LittleEndian(Word32(v))
  {
    hide VectorBits, Nibble, ByteBits;
    var a := Nibble(Nibble(v));
    var b := Nibble(Nibble(a));
    var c := Nibble(Nibble(b));
    ByteShift(v);
    LowByte(v);
    LowByte(a);
    LowByte(b);
    LowByte(c);
    ByteAt(v, 24);
    ByteAt(a, 16);
    ByteAt(b, 8);
    ByteAt(c, 0);
    VectorEmpty(Nibble(Nibble(c)));
    FourBytes(Word32(v), ByteBits(v), ByteBits(a), ByteBits(b), ByteBits(c));
  }

  lemma VectorEmpty(x: bv32)
    ensures VectorBits(x, 0) == []
  {
  }

  lemma FourBytes(w: Word, a: Byte, b: Byte, c: Byte, d: Byte)
    requires w == a + (b + (c + (d + [])))
    ensures LittleEndian(w) == [a, b, c, d]
  {
    assert w[..8] == a && w[8..16] == b && w[16..24] == c && w[24..] == d;
  }

  /** So the check of a received frame: the loops on its bytes and a trailer give the constant
      exactly if the trailer is the CRC word of the bytes, lowest byte first. */
  lemma FrameChecks(bytes: seq<bv32>, v: bv32)
    ensures var trailer := [v & 0xFF, (v & 0xFF00) >> 8, (v & 0xFF0000) >> 16, (v & 0xFF000000) >> 24];
      Crc(Message(bytes + trailer)) == Word32(0x2144DF1C) <==> Word32(v) == Crc(Message(bytes))
  {
    hide VectorBits, Bits, Crc, LittleEndian, ByteBits;
    var trailer := [v & 0xFF, (v & 0xFF00) >> 8, (v & 0xFF0000) >> 16, (v & 0xFF000000) >> 24];
    assert Message(bytes + trailer) == Message(bytes) + Message(trailer);
    TrailerBytes(v);
    ResidueExact(Message(bytes), Word32(v));
    ResidueValue();
  }
}
