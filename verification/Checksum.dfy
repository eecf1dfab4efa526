/** The Internet checksum of the UDP demo (section 1 of RFC 1071, RFC 768). */
module Checksum {
  import opened Basics

  type Half = h: nat | h < 0x1_0000

  // ----- What is computed

  function Pair(high: Byte, low: Byte): Half { high as nat * 256 + low as nat }

  /** The 16-bit words of the data, high byte first. An odd last byte is not looked at. */
  function Words(data: seq<Byte>): (r: seq<Half>)
    ensures |r| == |data| / 2
  {
    if |data| < 2 then [] else [Pair(data[0], data[1])] + Words(data[2..])
  }

  lemma {:induction false} WordAt(data: seq<Byte>, k: nat)
    requires k < |data| / 2
    ensures Words(data)[k] == data[2 * k] as nat * 256 + data[2 * k + 1] as nat
    decreases k
  {
    if k > 0 { WordAt(data[2..], k - 1); }
  }

  function Sum(words: seq<Half>): nat {
    if words == [] then 0 else words[0] + Sum(words[1..])
  }

  /** Adds the carries back in until none is left. */
  function Fold(x: nat): (r: Half)
    decreases x
  {
    if x < 0x1_0000 then x else Fold(x % 0x1_0000 + x / 0x1_0000)
  }

  /** The complement, with zero sent as all ones. */
  function Completed(h: Half): (c: Half)
    ensures c != 0
  {
    if h == 0xFFFF then 0xFFFF else 0xFFFF - h
  }

  function Value(r: Word, data: seq<Byte>, complete: bool): Half {
    var h := Fold((r + Sum(Words(data))) % 0x1_0000_0000);
    if complete then Completed(h) else h
  }

  method Compute(r0: Word, data: seq<Byte>, complete: bool) returns (result: Half)
    ensures result == Value(r0, data, complete)
  {
    hide Fold, Pair, Words;
    var r: Word := r0;
    ghost var total := (r0 + Sum(Words(data))) % 0x1_0000_0000;
    assert data[0..] == data;
    var length := |data| / 2;
    var i := 0;
    while i < length
      invariant 0 <= i <= length
      invariant (r + Sum(Words(data[2 * i..]))) % 0x1_0000_0000 == total
    {
      var rest := data[2 * i..];
      assert rest[2..] == data[2 * (i + 1)..];
      WordsNext(rest);
      Wrap(r, Pair(data[2 * i], data[2 * i + 1]), Sum(Words(rest[2..])));
      r := (r + Pair(data[2 * i], data[2 * i + 1])) % 0x1_0000_0000;
      i := i + 1;
    }
    WordsNone(data[2 * i..]);
    while r / 0x1_0000 != 0
      invariant Fold(r) == Fold(total)
      decreases r
    {
      FoldNext(r);
      r := r % 0x1_0000 + r / 0x1_0000;
    }
    FoldNext(r);
    if complete {
      r := 0xFFFF - r;
      if r == 0 { r := 0xFFFF; }
    }
    result := r;
  }

  lemma WordsNext(data: seq<Byte>)
    requires |data| >= 2
    ensures Words(data) == [Pair(data[0], data[1])] + Words(data[2..])
    ensures Sum(Words(data)) == Pair(data[0], data[1]) + Sum(Words(data[2..]))
  {
  }

  lemma WordsNone(data: seq<Byte>)
    requires |data| < 2
    ensures Sum(Words(data)) == 0
  {
  }

  lemma FoldNext(x: nat)
    ensures if x < 0x1_0000 then Fold(x) == x else Fold(x) == Fold(x % 0x1_0000 + x / 0x1_0000)
  {
  }

  lemma Wrap(r: nat, w: nat, s: nat)
    ensures ((r + w) % 0x1_0000_0000 + s) % 0x1_0000_0000 == (r + (w + s)) % 0x1_0000_0000
  {
  }

  // ----- The value of the fold

  /** The representative of x modulo 65535 in 1..65535, or zero for zero. */
  function Canon(x: nat): (r: Half) {
    if x == 0 then 0 else (x - 1) % 0xFFFF + 1
  }

  lemma {:induction false} FoldIsCanon(x: nat)
    ensures Fold(x) == Canon(x)
    decreases x
  {
    if x >= 0x1_0000 {
      var y := x % 0x1_0000 + x / 0x1_0000;
      FoldIsCanon(y);
      SameClass(x, y, x / 0x1_0000);
    }
  }

  lemma SameClass(x: nat, y: nat, k: nat)
    requires x == y + 0xFFFF * k && y > 0
    ensures Canon(x) == Canon(y)
  {
  }

  /** Ones' complement addition: the carry comes back in at the low end. */
  function OnesPlus(a: Half, b: Half): Half {
    if a + b < 0x1_0000 then a + b else a + b - 0xFFFF
  }

  function OnesSum(words: seq<Half>): Half {
    if words == [] then 0 else OnesPlus(words[0], OnesSum(words[1..]))
  }

  /** The fold of the plain sum is the ones' complement sum. */
  lemma {:induction false} FoldIsOnesSum(words: seq<Half>)
    ensures Fold(Sum(words)) == OnesSum(words)
  {
    FoldIsCanon(Sum(words));
    if words != [] {
      FoldIsOnesSum(words[1..]);
      var s := Sum(words[1..]);
      FoldIsCanon(s);
      CanonPlus(s, words[0]);
      CanonOnes(words[0], Canon(s));
    }
  }

  lemma CanonPlus(x: nat, y: nat)
    ensures Canon(Canon(x) + y) == Canon(x + y)
  {
    if x > 0 { SameClass(x + y, Canon(x) + y, (x - 1) / 0xFFFF); }
  }

  lemma CanonOnes(a: Half, b: Half)
    ensures Canon(b + a) == OnesPlus(a, b)
  {
  }

  // ----- No overflow, and chaining

  lemma {:induction false} SumBound(words: seq<Half>)
    ensures Sum(words) <= 0xFFFF * |words|
  {
    if words != [] { SumBound(words[1..]); }
  }

  function Full(n: nat): (r: seq<Half>)
    ensures |r| == n
  {
    seq<Half>(n, i => 0xFFFF)
  }

  lemma {:induction false} SumFull(n: nat)
    ensures Sum(Full(n)) == 0xFFFF * n
  {
    if n > 0 {
      SumFull(n - 1);
      assert Full(n)[1..] == Full(n - 1);
    }
  }

  predicate Fits(r: Half, words: seq<Half>) { r + Sum(words) < 0x1_0000_0000 }

  /** The 32-bit sum is exact for every start value of 16 bits and every n words just when
      n is at most 65536. */
  lemma OverflowExact(n: nat)
    ensures n <= 0x1_0000 <==> forall r: Half, words: seq<Half> :: |words| == n ==> Fits(r, words)
  {
    if n <= 0x1_0000 {
      forall r: Half, words: seq<Half> | |words| == n ensures Fits(r, words) {
        SumBound(words);
      }
    } else {
      SumFull(n);
      var r: Half := 0xFFFF;
      assert !Fits(r, Full(n));
    }
  }

  lemma {:induction false} SumAppend(a: seq<Half>, b: seq<Half>)
    ensures Sum(a + b) == Sum(a) + Sum(b)
  {
    if a == [] {
      assert a + b == b;
    } else {
      assert (a + b)[1..] == a[1..] + b;
      SumAppend(a[1..], b);
    }
  }

  lemma {:induction false} WordsAppend(a: seq<Byte>, b: seq<Byte>)
    requires |a| % 2 == 0
    ensures Words(a + b) == Words(a) + Words(b)
  {
    hide Pair, Words;
    if a == [] {
      WordsNone(a);
      assert a + b == b && Words(a) + Words(b) == Words(b);
    } else {
      assert (a + b)[2..] == a[2..] + b;
      WordsNext(a);
      WordsNext(a + b);
      WordsAppend(a[2..], b);
    }
  }

  lemma NoWrap(r: Half, data: seq<Byte>, complete: bool)
    requires |data| / 2 <= 0x1_0000
    ensures var h := Canon(r + Sum(Words(data))); Value(r, data, complete) == if complete then Completed(h) else h
  {
    hide Fold, Canon, Words;
    SumBound(Words(data));
    FoldIsCanon(r + Sum(Words(data)));
  }

  /** The plain sum is the ones' complement sum of the data when it cannot overflow. */
  lemma ValueIsOnesSum(r: Half, data: seq<Byte>)
    requires |data| / 2 <= 0x1_0000
    ensures Value(r, data, false) == OnesPlus(r, OnesSum(Words(data)))
    ensures
      var s := OnesPlus(r, OnesSum(Words(data)));
      Value(r, data, true) == if s == 0xFFFF then 0xFFFF else 0xFFFF - s
  {
    hide Fold, Canon, Words, Value;
    var s := Sum(Words(data));
    NoWrap(r, data, false);
    NoWrap(r, data, true);
    FoldIsOnesSum(Words(data));
    FoldIsCanon(s);
    CanonPlus(s, r);
    CanonOnes(r, Canon(s));
  }

  /** Summing a first part and going on with its result is summing the whole. */
  lemma Chaining(r: Half, a: seq<Byte>, b: seq<Byte>, complete: bool)
    requires |a| % 2 == 0 && |a + b| / 2 <= 0x1_0000
    ensures Value(Value(r, a, false), b, complete) == Value(r, a + b, complete)
  {
    hide Fold, Canon, Words, Value;
    var s, t := Sum(Words(a)), Sum(Words(b));
    WordsAppend(a, b);
    SumAppend(Words(a), Words(b));
    NoWrap(r, a, false);
    NoWrap(Value(r, a, false), b, complete);
    NoWrap(r, a + b, complete);
    CanonPlus(r + s, t);
  }

  // ----- Placing the checksum

  /** Stores h in words k of the data, high byte first. */
  function Place(data: seq<Byte>, k: nat, h: Half): (r: seq<Byte>)
    requires 2 * k + 1 < |data|
    ensures |r| == |data|
  {
    data[2 * k := h / 256][2 * k + 1 := h % 256]
  }

  lemma {:induction false} PlaceSum(data: seq<Byte>, k: nat, h: Half)
    requires 2 * k + 1 < |data| && data[2 * k] == 0 && data[2 * k + 1] == 0
    ensures Sum(Words(Place(data, k, h))) == Sum(Words(data)) + h
    decreases k
  {
    var placed := Place(data, k, h);
    if k == 0 {
      assert placed[2..] == data[2..];
      Together(h);
    } else {
      assert placed[2..] == Place(data[2..], k - 1, h);
      PlaceSum(data[2..], k - 1, h);
    }
  }

  lemma Together(h: Half)
    ensures h / 256 < 256 && Pair(h / 256, h % 256) == h
  {
  }

  /** A receiver that sums data whose field was zero before h went into it gets all ones
      exactly if h is the completed checksum, or the other form of zero in its place. */
  lemma FieldExact(r: Half, data: seq<Byte>, k: nat, h: Half)
    requires |data| / 2 <= 0x1_0000 && 2 * k + 1 < |data| && data[2 * k] == 0 && data[2 * k + 1] == 0
    ensures var c := Value(r, data, true);
      Value(r, Place(data, k, h), false) == 0xFFFF <==>
      h == c || (h == 0 && c == 0xFFFF && r + Sum(Words(data)) != 0)
  {
    hide Fold, Canon, Words, Value, Place, Sum, Completed;
    var s := r + Sum(Words(data));
    NoWrap(r, data, true);
    NoWrap(r, Place(data, k, h), false);
    PlaceSum(data, k, h);
    CanonPlus(s, h);
    AllOnes(s, h);
  }

  lemma AllOnes(s: nat, h: Half)
    ensures var c := Completed(Canon(s));
      Canon(Canon(s) + h) == 0xFFFF <==> h == c || (h == 0 && c == 0xFFFF && s != 0)
  {
  }

  /** A datagram behind its pseudo-header: the checksum that the sender chains over both and
      stores in the zeroed field makes the receiver's sum over everything come to all ones. */
  lemma DatagramVerifies(pseudo: seq<Byte>, data: seq<Byte>, k: nat)
    requires |pseudo| % 2 == 0 && |pseudo + data| / 2 <= 0x1_0000
    requires 2 * k + 1 < |data| && data[2 * k] == 0 && data[2 * k + 1] == 0
    ensures var c := Value(Value(0, pseudo, false), data, true);
      Value(0, pseudo + Place(data, k, c), false) == 0xFFFF && c != 0
  {
    var r := Value(0, pseudo, false);
    var c := Value(r, data, true);
    FieldExact(r, data, k, c);
    Chaining(0, pseudo, Place(data, k, c), false);
  }
}
