/** The CRC-32 that ends an Ethernet frame (IEEE 802.3 section 3.2.9): the shift register of
    the driver against polynomial long division. A machine word is its 32 bits, lowest first. */
module Crc32 {
  type Word = w: seq<bool> | |w| == 32 witness seq<bool>(32, i => false)
  type Byte = b: seq<bool> | |b| == 8 witness seq<bool>(8, i => false)

  // ----- Bits

  function Xor(a: seq<bool>, b: seq<bool>): (r: seq<bool>)
    requires |a| == |b|
    ensures |r| == |a|
  {
    seq(|a|, i requires 0 <= i < |a| => a[i] != b[i])
  }

  function And(a: Word, b: Word): Word {
    seq<bool>(32, i requires 0 <= i < 32 => a[i] && b[i])
  }

  function Not(a: Word): Word {
    seq<bool>(32, i requires 0 <= i < 32 => !a[i])
  }

  function Zeros(n: nat): (r: seq<bool>)
    ensures |r| == n
  {
    seq(n, i => false)
  }

  function Ones(): Word { seq<bool>(32, i => true) }

  function ShiftRight(a: Word): Word { a[1..] + [false] }

  /** The negation of the low bit: all ones or all zeros. */
  function Mask(a: Word): Word { seq<bool>(32, i requires 0 <= i < 32 => a[0]) }

  function Widen(b: Byte): Word { b + Zeros(24) }

  /** The low k bits of n. */
  function Bits(n: nat, k: nat): (r: seq<bool>)
    ensures |r| == k
  {
    if k == 0 then [] else [n % 2 == 1] + Bits(n / 2, k - 1)
  }

  function Poly(): Word { Bits(0xEDB88320, 32) }

  // ----- The register

  /** One turn of the inner loop. */
  function Step(x: Word): Word { Xor(ShiftRight(x), And(Poly(), Mask(x))) }

  function Steps(x: Word, n: nat): Word
    decreases n
  {
    if n == 0 then x else Steps(Step(x), n - 1)
  }

  /** Takes in one byte. */
  function Update(x: Word, b: Byte): Word { Steps(Xor(x, Widen(b)), 8) }

  function Fold(x: Word, message: seq<Byte>): Word {
    if message == [] then x else Update(Fold(x, message[..|message| - 1]), message[|message| - 1])
  }

  function Crc(message: seq<Byte>): Word { Not(Fold(Ones(), message)) }

  // ----- Linearity

  lemma StepXor(x: Word, y: Word)
    ensures Step(Xor(x, y)) == Xor(Step(x), Step(y))
  {
    hide Poly;
  }

  lemma {:induction false} StepsXor(x: Word, y: Word, n: nat)
    ensures Steps(Xor(x, y), n) == Xor(Steps(x, n), Steps(y, n))
    decreases n
  {
    hide Step, Xor;
    if n > 0 {
      StepXor(x, y);
      StepsXor(Step(x), Step(y), n - 1);
    }
  }

  /** Bytewise exclusive or of two messages. */
  function Both(a: seq<Byte>, b: seq<Byte>): (r: seq<Byte>)
    requires |a| == |b|
    ensures |r| == |a|
  {
    seq(|a|, i requires 0 <= i < |a| => Xor(a[i], b[i]))
  }

  function Blank(n: nat): (r: seq<Byte>)
    ensures |r| == n
  {
    seq(n, i => Zeros(8))
  }

  lemma XorSwap(u: Word, v: Word, a: Byte, b: Byte)
    ensures Xor(Xor(u, v), Widen(Xor(a, b))) == Xor(Xor(u, Widen(a)), Xor(v, Widen(b)))
  {
  }

  lemma {:induction false} FoldXor(x: Word, y: Word, a: seq<Byte>, b: seq<Byte>)
    requires |a| == |b|
    ensures Fold(Xor(x, y), Both(a, b)) == Xor(Fold(x, a), Fold(y, b))
  {
    hide Steps, Xor, Widen;
    if a != [] {
      var n := |a| - 1;
      FoldXor(x, y, a[..n], b[..n]);
      assert Both(a, b)[..n] == Both(a[..n], b[..n]);
      var u, v := Fold(x, a[..n]), Fold(y, b[..n]);
      StepsXor(Xor(u, Widen(a[n])), Xor(v, Widen(b[n])), 8);
      XorSwap(u, v, a[n], b[n]);
    }
  }

  /** For messages of one length, the CRC is an affine map over the two-element field. */
  lemma CrcLinear(a: seq<Byte>, b: seq<Byte>)
    requires |a| == |b|
    ensures Crc(Both(a, b)) == Xor(Xor(Crc(a), Crc(b)), Crc(Blank(|a|)))
  {
    hide Fold;
    FoldXor(Ones(), Ones(), a, b);
    assert Both(Both(a, b), Blank(|a|)) == Both(a, b) by { BlankAdds(Both(a, b)); }
    FoldXor(Xor(Ones(), Ones()), Ones(), Both(a, b), Blank(|a|));
    assert Xor(Xor(Ones(), Ones()), Ones()) == Ones();
  }

  lemma BlankAdds(a: seq<Byte>)
    ensures Both(a, Blank(|a|)) == a
  {
    forall i | 0 <= i < |a| ensures Both(a, Blank(|a|))[i] == a[i] {
      assert Xor(a[i], Zeros(8)) == a[i];
    }
  }

  // ----- One bit at a time

  function Low(b: bool): Word { [b] + Zeros(31) }

  function TakeBit(x: Word, b: bool): Word { Step(Xor(x, Low(b))) }

  function FoldBits(x: Word, s: seq<bool>): Word
    decreases s
  {
    if s == [] then x else FoldBits(TakeBit(x, s[0]), s[1..])
  }

  /** The bits of a message in the order they are sent. */
  function Stream(message: seq<Byte>): (r: seq<bool>)
    ensures |r| == 8 * |message|
  {
    if message == [] then [] else Stream(message[..|message| - 1]) + message[|message| - 1]
  }

  function Pad(s: seq<bool>): Word
    requires |s| <= 32
  {
    s + Zeros(32 - |s|)
  }

  /** A step moves a word with a clear low bit down and nothing else. */
  lemma StepClear(x: Word)
    requires !x[0]
    ensures Step(x) == x[1..] + [false]
  {
    hide Poly;
  }

  /** Up to 32 bits fed one by one are the same as one exclusive or and that many steps. */
  lemma {:induction false} FoldBitsSteps(x: Word, s: seq<bool>)
    requires |s| <= 32
    ensures FoldBits(x, s) == Steps(Xor(x, Pad(s)), |s|)
    decreases s
  {
    if s == [] {
      assert Xor(x, Pad(s)) == x;
    } else {
      FoldBitsSteps(TakeBit(x, s[0]), s[1..]);
      FirstBit(x, s);
    }
  }

  lemma FirstBit(x: Word, s: seq<bool>)
    requires 0 < |s| <= 32
    ensures Step(Xor(x, Pad(s))) == Xor(TakeBit(x, s[0]), Pad(s[1..]))
  {
    hide Step;
    var rest: Word := [false] + s[1..] + Zeros(32 - |s|);
    assert Xor(x, Pad(s)) == Xor(Xor(x, Low(s[0])), rest);
    StepXor(Xor(x, Low(s[0])), rest);
    StepClear(rest);
    assert rest[1..] + [false] == Pad(s[1..]);
  }

  lemma {:induction false} FoldBitsAppend(x: Word, s: seq<bool>, t: seq<bool>)
    ensures FoldBits(x, s + t) == FoldBits(FoldBits(x, s), t)
    decreases s
  {
    hide TakeBit;
    if s == [] {
      assert s + t == t;
    } else {
      assert (s + t)[1..] == s[1..] + t;
      FoldBitsAppend(TakeBit(x, s[0]), s[1..], t);
    }
  }

  /** The bytewise loop of the driver takes in the bits one after the other. */
  lemma {:induction false} FoldIsBits(x: Word, message: seq<Byte>)
    ensures Fold(x, message) == FoldBits(x, Stream(message))
  {
    hide TakeBit, Steps, FoldBits;
    if message == [] {
      FoldBitsNone(x);
    } else {
      var n := |message| - 1;
      FoldIsBits(x, message[..n]);
      FoldBitsAppend(x, Stream(message[..n]), message[n]);
      FoldBitsSteps(Fold(x, message[..n]), message[n]);
      assert Pad(message[n]) == Widen(message[n]);
    }
  }

  lemma FoldBitsNone(x: Word)
    ensures FoldBits(x, []) == x
  {
  }

  // ----- Polynomial division

  /** x^32+x^26+x^23+x^22+x^16+x^12+x^11+x^10+x^8+x^7+x^5+x^4+x^2+x+1, highest power first. */
  function Generator(): (g: seq<bool>)
    ensures |g| == 33
  {
    seq(33, i => 32 - i in {32, 26, 23, 22, 16, 12, 11, 10, 8, 7, 5, 4, 2, 1, 0})
  }

  lemma BitsNext(n: nat, k: nat)
    ensures Bits(n, k + 1) == [n % 2 == 1] + Bits(n / 2, k) && Bits(n, 0) == []
  {
  }

  lemma Nibble(n: nat, k: nat)
    ensures Bits(n, k + 4) == [n % 2 == 1, n / 2 % 2 == 1, n / 4 % 2 == 1, n / 8 % 2 == 1] + Bits(n / 16, k)
  {
    hide Bits;
    BitsNext(n, k + 3);
    BitsNext(n / 2, k + 2);
    BitsNext(n / 4, k + 1);
    BitsNext(n / 8, k);
  }

  lemma LowHalf()
    ensures Bits(0xEDB88320, 32) ==
      [false, false, false, false, false, true, false, false, true, true, false, false, false, false, false, true] +
      Bits(0xEDB8, 16)
  {
    hide Bits;
    Nibble(0xEDB88320, 28);
    Nibble(0xEDB8832, 24);
    Nibble(0xEDB883, 20);
    Nibble(0xEDB88, 16);
  }

  lemma HighHalf()
    ensures Bits(0xEDB8, 16) ==
      [false, false, false, true, true, true, false, true, true, false, true, true, false, true, true, true]
  {
    hide Bits;
    Nibble(0xEDB8, 12);
    Nibble(0xEDB, 8);
    Nibble(0xED, 4);
    Nibble(0xE, 0);
    BitsNext(0, 0);
  }

  /** The constant of the driver holds the coefficients below x^32, highest in the lowest bit. */
  lemma PolyIsGenerator()
    ensures Generator()[0] && Generator()[1..] == Poly() && Poly()[31]
  {
    hide Bits;
    LowHalf();
    HighHalf();
    var g, p := Generator(), Poly();
    forall i | 0 <= i < 32 ensures g[i + 1] == p[i] {
    }
  }

  /** Subtracts g from the front of d. */
  function Mix(d: seq<bool>, g: seq<bool>): (r: seq<bool>)
    requires |g| <= |d|
    ensures |r| == |d|
  {
    seq(|d|, i requires 0 <= i < |d| => if i < |g| then d[i] != g[i] else d[i])
  }

  /** One line of the long division by the generator, highest power first. */
  function Reduce(d: seq<bool>): (r: seq<bool>)
    requires |d| > 32
    ensures |r| == |d| - 1
  {
    if d[0] then Mix(d, Generator())[1..] else d[1..]
  }

  function Remainder(d: seq<bool>): Word
    requires |d| >= 32
    decreases |d|
  {
    if |d| == 32 then d else Remainder(Reduce(d))
  }

  function Quotient(d: seq<bool>): (q: seq<bool>)
    requires |d| >= 32
    ensures |q| == |d| - 32
    decreases |d|
  {
    if |d| == 32 then [] else [d[0]] + Quotient(Reduce(d))
  }

  /** p, plus the generator in front if `high`. */
  function Extend(high: bool, p: seq<bool>): (r: seq<bool>)
    requires |p| >= 32
    ensures |r| == |p| + 1
  {
    if high then Mix([false] + p, Generator()) else [false] + p
  }

  /** The product of q and the generator. */
  function Product(q: seq<bool>): (r: seq<bool>)
    ensures |r| == |q| + 32
  {
    if q == [] then Zeros(32) else Extend(q[0], Product(q[1..]))
  }

  lemma ProductNext(high: bool, q: seq<bool>)
    ensures Product([high] + q) == Extend(high, Product(q))
  {
    assert ([high] + q)[1..] == q;
  }

  /** r as a polynomial of n more powers. */
  function Below(n: nat, r: Word): (d: seq<bool>)
    ensures |d| == n + 32
  {
    Zeros(n) + r
  }

  lemma BelowNext(n: nat, r: Word)
    ensures Below(n + 1, r) == [false] + Below(n, r) && Below(0, r) == r
  {
  }

  lemma ExtendReduce(high: bool, p: seq<bool>, r: seq<bool>)
    requires |p| == |r| >= 32 && Generator()[0]
    ensures var d := Xor(Extend(high, p), [false] + r); d[0] == high && Reduce(d) == Xor(p, r)
  {
    hide Generator;
    var d := Xor(Extend(high, p), [false] + r);
    assert d[0] == high;
    forall i | 0 <= i < |p| ensures Reduce(d)[i] == Xor(p, r)[i] {
      assert d[i + 1] == (Extend(high, p)[i + 1] != r[i]);
    }
  }

  lemma ReduceExtend(d: seq<bool>, p: seq<bool>, r: seq<bool>)
    requires |d| > 32 && |p| == |r| == |d| - 1 && Generator()[0] && Reduce(d) == Xor(p, r)
    ensures Xor(Extend(d[0], p), [false] + r) == d
  {
    hide Generator;
    var sum := Xor(Extend(d[0], p), [false] + r);
    forall i | 0 <= i < |d| ensures sum[i] == d[i] {
      if i > 0 { assert Reduce(d)[i - 1] == Xor(p, r)[i - 1]; }
    }
  }

  /** Division with remainder: d is a multiple of the generator plus the remainder. */
  lemma {:induction false} DivisionLaw(d: seq<bool>)
    requires |d| >= 32
    ensures Xor(Product(Quotient(d)), Below(|d| - 32, Remainder(d))) == d
    decreases |d|
  {
    hide Poly, Product, Reduce, Extend, Below, Generator;
    if |d| == 32 {
      NoMultiple(d);
    } else {
      DivisionLaw(Reduce(d));
      var q, r := Quotient(Reduce(d)), Remainder(d);
      PolyIsGenerator();
      ProductNext(d[0], q);
      BelowNext(|d| - 33, r);
      ReduceExtend(d, Product(q), Below(|d| - 33, r));
    }
  }

  lemma NoMultiple(r: Word)
    ensures Xor(Product([]), Below(0, r)) == r
  {
    assert Below(0, r) == r;
  }

  /** And it is the only one: whatever multiple is added to r, the remainder is r. */
  lemma {:induction false} RemainderUnique(q: seq<bool>, r: Word)
    ensures Remainder(Xor(Product(q), Below(|q|, r))) == r
  {
    hide Poly, Product, Reduce, Extend, Below, Xor, Generator;
    if q == [] {
      NoMultiple(r);
    } else {
      var tail := q[1..];
      RemainderUnique(tail, r);
      PolyIsGenerator();
      assert q == [q[0]] + tail;
      ProductNext(q[0], tail);
      BelowNext(|tail|, r);
      ExtendReduce(q[0], Product(tail), Below(|tail|, r));
    }
  }

  /** The register holds the remainder of the bits it has taken in. */
  lemma {:induction false} RegisterDivides(x: Word, s: seq<bool>)
    ensures Remainder(Mix(s + Zeros(32), x)) == FoldBits(x, s)
    decreases s
  {
    hide TakeBit, Reduce, Mix;
    var d := Mix(s + Zeros(32), x);
    if s == [] {
      OnlyRegister(x);
    } else {
      RegisterDivides(TakeBit(x, s[0]), s[1..]);
      RegisterStep(x, s);
    }
  }

  lemma OnlyRegister(x: Word)
    ensures Mix([] + Zeros(32), x) == x
  {
  }

  lemma RegisterStep(x: Word, s: seq<bool>)
    requires s != []
    ensures Reduce(Mix(s + Zeros(32), x)) == Mix(s[1..] + Zeros(32), TakeBit(x, s[0]))
  {
    hide Generator, Poly;
    PolyIsGenerator();
    assert forall i :: 0 <= i < 32 ==> Generator()[1..][i] == Generator()[i + 1];
  }

  /** The CRC is the remainder of the message, its first 32 bits complemented, times x^32,
      complemented again. */
  lemma CrcIsRemainder(message: seq<Byte>)
    ensures Crc(message) == Not(Remainder(Mix(Stream(message) + Zeros(32), Ones())))
  {
    FoldIsBits(Ones(), message);
    RegisterDivides(Ones(), Stream(message));
  }

  // ----- What the receiver can conclude

  /** The register before the step that gave y. */
  function Unstep(y: Word): Word {
    [y[31]] + seq<bool>(31, i requires 0 <= i < 31 => y[i] != (Poly()[i] && y[31]))
  }

  lemma StepInverse(x: Word)
    ensures Unstep(Step(x)) == x
  {
    hide Poly;
    PolyIsGenerator();
  }

  lemma {:induction false} StepsInjective(x: Word, y: Word, n: nat)
    requires Steps(x, n) == Steps(y, n)
    ensures x == y
    decreases n
  {
    hide Step, Unstep;
    if n > 0 {
      StepsInjective(Step(x), Step(y), n - 1);
      StepInverse(x);
      StepInverse(y);
    }
  }

  lemma XorCancel(x: Word, u: Word, w: Word)
    requires Xor(x, u) == Xor(x, w)
    ensures u == w
  {
    forall i | 0 <= i < 32 ensures u[i] == w[i] {
      assert Xor(x, u)[i] == Xor(x, w)[i];
    }
  }

  /** Different bits, up to 32 of them, lead to different registers. */
  lemma WindowInjective(x: Word, u: seq<bool>, w: seq<bool>)
    requires |u| == |w| <= 32 && FoldBits(x, u) == FoldBits(x, w)
    ensures u == w
  {
    FoldBitsSteps(x, u);
    FoldBitsSteps(x, w);
    StepsInjective(Xor(x, Pad(u)), Xor(x, Pad(w)), |u|);
    XorCancel(x, Pad(u), Pad(w));
    assert Pad(u)[..|u|] == u && Pad(w)[..|w|] == w;
  }

  /** Equal bits keep different registers apart. */
  lemma {:induction false} FoldBitsInjective(x: Word, y: Word, s: seq<bool>)
    requires FoldBits(x, s) == FoldBits(y, s)
    ensures x == y
    decreases s
  {
    if s != [] {
      FoldBitsInjective(TakeBit(x, s[0]), TakeBit(y, s[0]), s[1..]);
      StepInverse(Xor(x, Low(s[0])));
      StepInverse(Xor(y, Low(s[0])));
      XorCancelRight(x, y, Low(s[0]));
    }
  }

  lemma XorCancelRight(x: Word, y: Word, u: Word)
    requires Xor(x, u) == Xor(y, u)
    ensures x == y
  {
    forall i | 0 <= i < 32 ensures x[i] == y[i] {
      assert Xor(x, u)[i] == Xor(y, u)[i];
    }
  }

  /** The four bytes of a word, lowest first, as the driver stores them behind the message. */
  function LittleEndian(v: Word): seq<Byte> { [v[..8], v[8..16], v[16..24], v[24..]] }

  function Residue(): Word { Not(Steps(Ones(), 32)) }

  lemma TrailerStream(message: seq<Byte>, v: Word)
    ensures Stream(message + LittleEndian(v)) == Stream(message) + v
  {
    hide Stream;
    StreamNext(message, v[..8]);
    StreamNext(message + [v[..8]], v[8..16]);
    StreamNext(message + [v[..8]] + [v[8..16]], v[16..24]);
    StreamNext(message + [v[..8]] + [v[8..16]] + [v[16..24]], v[24..]);
    assert message + LittleEndian(v) == message + [v[..8]] + [v[8..16]] + [v[16..24]] + [v[24..]];
  }

  lemma StreamNext(message: seq<Byte>, b: Byte)
    ensures Stream(message + [b]) == Stream(message) + b
  {
    assert (message + [b])[..|message|] == message;
  }

  /** The receiver's check: a message and four bytes give the one constant exactly when the
      four bytes are the CRC of the message. */
  lemma ResidueExact(message: seq<Byte>, v: Word)
    ensures Crc(message + LittleEndian(v)) == Residue() <==> v == Crc(message)
  {
    hide Steps, Stream, FoldBits, LittleEndian;
    var c := Fold(Ones(), message);
    var f := Fold(Ones(), message + LittleEndian(v));
    FoldIsBits(Ones(), message);
    FoldIsBits(Ones(), message + LittleEndian(v));
    TrailerStream(message, v);
    FoldBitsAppend(Ones(), Stream(message), v);
    FoldBitsSteps(c, v);
    assert Pad(v) == v;
    assert f == Steps(Xor(c, v), 32);
    NotCancel(f, Steps(Ones(), 32));
    NotXor(c, v);
    if f == Steps(Ones(), 32) { StepsInjective(Xor(c, v), Ones(), 32); }
  }

  lemma NotCancel(a: Word, b: Word)
    ensures Not(a) == Not(b) <==> a == b
  {
    if Not(a) == Not(b) {
      forall i | 0 <= i < 32 ensures a[i] == b[i] {
        assert Not(a)[i] == Not(b)[i];
      }
    }
  }

  lemma NotXor(c: Word, v: Word)
    ensures Xor(c, v) == Ones() <==> v == Not(c)
  {
    if Xor(c, v) == Ones() {
      forall i | 0 <= i < 32 ensures v[i] == Not(c)[i] {
        assert Xor(c, v)[i];
      }
    }
  }

  /** Every burst is caught: two messages of one length that differ only inside 32
      consecutive bits have different CRCs. */
  lemma BurstDetected(a: seq<Byte>, b: seq<Byte>, k: nat, n: nat)
    requires |a| == |b| && a != b && n <= 32 && k + n <= 8 * |a|
    requires Stream(a)[..k] == Stream(b)[..k] && Stream(a)[k + n..] == Stream(b)[k + n..]
    ensures Crc(a) != Crc(b)
  {
    hide Stream, FoldBits, Fold;
    if Crc(a) == Crc(b) {
      var s, t := Stream(a), Stream(b);
      NotCancel(Fold(Ones(), a), Fold(Ones(), b));
      FoldIsBits(Ones(), a);
      FoldIsBits(Ones(), b);
      ThreeParts(s, k, n);
      ThreeParts(t, k, n);
      var x := FoldBits(Ones(), s[..k]);
      FoldBitsInjective(FoldBits(x, s[k..k + n]), FoldBits(x, t[k..k + n]), s[k + n..]);
      WindowInjective(x, s[k..k + n], t[k..k + n]);
      TwoSlices(s, k);
      TwoSlices(t, k);
      MiddleSlices(s, k, n);
      MiddleSlices(t, k, n);
      StreamInjective(a, b);
    }
  }

  lemma ThreeParts(s: seq<bool>, k: nat, n: nat)
    requires k + n <= |s|
    ensures FoldBits(Ones(), s) == FoldBits(FoldBits(FoldBits(Ones(), s[..k]), s[k..k + n]), s[k + n..])
  {
    hide FoldBits, Ones;
    TwoSlices(s, k);
    MiddleSlices(s, k, n);
    FoldBitsAppend(Ones(), s[..k], s[k..]);
    FoldBitsAppend(FoldBits(Ones(), s[..k]), s[k..k + n], s[k + n..]);
  }

  lemma TwoSlices(s: seq<bool>, k: nat)
    requires k <= |s|
    ensures s == s[..k] + s[k..]
  {
  }

  lemma MiddleSlices(s: seq<bool>, k: nat, n: nat)
    requires k + n <= |s|
    ensures s[k..] == s[k..k + n] + s[k + n..]
  {
  }

  lemma {:induction false} StreamInjective(a: seq<Byte>, b: seq<Byte>)
    requires |a| == |b| && Stream(a) == Stream(b)
    ensures a == b
  {
    if a != [] {
      var n := |a| - 1;
      assert Stream(a)[..8 * n] == Stream(a[..n]) && Stream(b)[..8 * n] == Stream(b[..n]);
      assert Stream(a)[8 * n..] == a[n] && Stream(b)[8 * n..] == b[n];
      StreamInjective(a[..n], b[..n]);
      assert a == a[..n] + [a[n]] && b == b[..n] + [b[n]];
    }
  }
}
