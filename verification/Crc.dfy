/** CRC-16/X-25 (internal/protocol/crc.go).
    The method has the source's nested loops on a 16-bit number. Its specification is the
    bit-serial shift register over the register's 16 bits, low bit first, into which each byte
    enters low bit first; the error-detection results are about that specification. */
module Crc {
  import opened Bytes

  type Register = r: seq<bool> | |r| == 16 witness seq(16, i => false)

  /** The w lowest bits of n, low bit first. */
  function LowBits(n: nat, w: nat): (s: seq<bool>)
    ensures |s| == w
  {
    if w == 0 then [] else [n % 2 == 1] + LowBits(n / 2, w - 1)
  }

  /** A register holding the given number. */
  function Word(n: nat): Register { LowBits(n, 16) }

  /** The bits of a byte string in transmission order. */
  function Bits(data: seq<byte>): (s: seq<bool>)
    ensures |s| == 8 * |data|
  {
    if data == [] then [] else LowBits(data[0], 8) + Bits(data[1..])
  }

  function Clear(n: nat): (s: seq<bool>)
    ensures |s| == n && forall i :: 0 <= i < n ==> !s[i]
  {
    seq(n, i => false)
  }

  function Xor(a: seq<bool>, b: seq<bool>): (s: seq<bool>)
    requires |a| == |b|
    ensures |s| == |a| && forall i :: 0 <= i < |a| ==> s[i] == (a[i] != b[i])
  {
    seq(|a|, i requires 0 <= i < |a| => a[i] != b[i])
  }

  function Not(a: seq<bool>): (s: seq<bool>)
    ensures |s| == |a| && forall i :: 0 <= i < |a| ==> s[i] == !a[i]
  {
    seq(|a|, i requires 0 <= i < |a| => !a[i])
  }

  /** The reflected generator: the constant 0x8408 (lemma WordOfPoly). */
  function Poly(): (p: Register)
    ensures forall i :: 0 <= i < 16 ==> p[i] == (i == 3 || i == 10 || i == 15)
  {
    seq(16, i => i == 3 || i == 10 || i == 15)
  }

  /** crc >> 1 */
  function Shift(r: Register): (s: Register)
    ensures forall i :: 0 <= i < 16 ==> s[i] == (i < 15 && r[i + 1])
  {
    r[1..] + [false]
  }

  /** One turn of the inner loop. */
  function Step(r: Register): Register {
    if r[0] then Xor(Shift(r), Poly()) else Shift(r)
  }

  function Steps(r: Register, n: nat): Register
    decreases n, r
  {
    if n == 0 then r else Steps(Step(r), n - 1)
  }

  /** One bit xored into the low position. */
  function Enter(r: Register, b: bool): Register { r[0 := r[0] != b] }

  /** The register after feeding `bits` one by one: the defining shift register of the code. */
  function Feed(r: Register, bits: seq<bool>): Register
    decreases |bits|
  {
    if bits == [] then r else Feed(Step(Enter(r, bits[0])), bits[1..])
  }

  /** The initial value 0xFFFF. */
  function Init(): (r: Register)
    ensures forall i :: 0 <= i < 16 ==> r[i]
  {
    Not(Clear(16))
  }

  /** The CRC of a byte string: the complement of the register after all its bits. */
  function Value(data: seq<byte>): Register { Not(Feed(Init(), Bits(data))) }

  /** The register as a number: one turn of the inner loop, and n of them. */
  function NumStep(n: nat): nat { if n % 2 != 0 then BitXor(n / 2, 0x8408) else n / 2 }

  function NumSteps(n: nat, k: nat): nat
    decreases k, n
  {
    if k == 0 then n else NumSteps(NumStep(n), k - 1)
  }

  /** The register after feeding whole bytes. */
  function NumFeed(n: nat, data: seq<byte>): nat
    decreases |data|
  {
    if data == [] then n else NumFeed(NumSteps(BitXor(n, data[0]), 8), data[1..])
  }

  /** The CRC as a number. */
  function NumCrc(data: seq<byte>): int { 0xFFFF - NumFeed(0xFFFF, data) }

  /** The source's nested loops. */
  method CRC16X25(data: seq<byte>) returns (crc: int)
    ensures crc == NumCrc(data)
  {
    hide BitXor;
    var r: nat := 0xFFFF;
    var k := 0;
    while k < |data|
      invariant 0 <= k <= |data|
      invariant NumFeed(0xFFFF, data) == NumFeed(r, data[k..])
    {
      r := BitXor(r, data[k]);
      ghost var entered := r;
      var i := 0;
      while i < 8
        invariant 0 <= i <= 8
        invariant NumSteps(entered, 8) == NumSteps(r, 8 - i)
      {
        if r % 2 != 0 {
          r := BitXor(r / 2, 0x8408);
        } else {
          r := r / 2;
        }
        i := i + 1;
      }
      assert data[k..][1..] == data[k + 1..];
      k := k + 1;
    }
    assert data[k..] == [];
    crc := 0xFFFF - r;
  }

  lemma ComplementOfFeed(n: nat, data: seq<byte>)
    requires n == 0xFFFF
    ensures NumFeed(n, data) < 0x1_0000
    ensures Word(0xFFFF - NumFeed(n, data)) == Value(data)
  {
    hide Word, NumFeed, Feed, Init, Bits;
    NumFeedIsFeed(n, data);
    WordOfInit(n);
    WordOfNot(NumFeed(n, data));
  }

  /** The number the loops compute is a uint16, and its bits are the shift register's. */
  lemma CrcIsShiftRegister(data: seq<byte>)
    ensures 0 <= NumCrc(data) < 0x1_0000 && Word(NumCrc(data)) == Value(data)
  {
    ComplementOfFeed(0xFFFF, data);
  }

  // ----- registers as 16-bit numbers -----

  lemma LowBitsStep(n: nat, w: nat)
    requires w > 0
    ensures LowBits(n, w) == [n % 2 == 1] + LowBits(n / 2, w - 1)
  {}

  lemma {:induction false} LowBitsOfXor(a: nat, b: nat, w: nat)
    ensures LowBits(BitXor(a, b), w) == Xor(LowBits(a, w), LowBits(b, w))
    decreases w
  {
    if w > 0 {
      LowBitsStep(BitXor(a, b), w);
      LowBitsStep(a, w);
      LowBitsStep(b, w);
      hide BitXor, LowBits;
      XorHalves(a, b);
      OddSum(a, b);
      LowBitsOfXor(a / 2, b / 2, w - 1);
    }
  }

  lemma OddSum(a: nat, b: nat)
    ensures (a + b) % 2 == 1 <==> (a % 2 == 1) != (b % 2 == 1)
  {}

  lemma {:induction false} LowBitsOneMore(n: nat, w: nat)
    requires n < Power(w)
    ensures LowBits(n, w + 1) == LowBits(n, w) + [false]
    decreases w
  {
    if w > 0 { LowBitsOneMore(n / 2, w - 1); }
  }

  lemma {:induction false} LowBitsOfComplement(n: nat, w: nat)
    requires n < Power(w)
    ensures LowBits(Power(w) - 1 - n, w) == Not(LowBits(n, w))
    decreases w
  {
    hide LowBits, Power;
    if w > 0 {
      PowerTimes(w, 0);
      LowBitsStep(Power(w) - 1 - n, w);
      LowBitsStep(n, w);
      ComplementHalves(n, Power(w - 1));
      LowBitsOfComplement(n / 2, w - 1);
    }
  }

  lemma ComplementHalves(n: nat, p: nat)
    requires n < 2 * p
    ensures n / 2 < p && (2 * p - 1 - n) / 2 == p - 1 - n / 2
    ensures (2 * p - 1 - n) % 2 == 1 <==> n % 2 != 1
  {}

  lemma {:induction false} LowBitsOfZero(w: nat)
    ensures LowBits(0, w) == Clear(w)
  {
    if w > 0 { LowBitsOfZero(w - 1); }
  }

  lemma {:induction false} LowBitsInjective(a: nat, b: nat, w: nat)
    requires a < Power(w) && b < Power(w) && LowBits(a, w) == LowBits(b, w)
    ensures a == b
    decreases w
  {
    if w > 0 {
      assert LowBits(a, w)[0] == LowBits(b, w)[0];
      assert LowBits(a, w)[1..] == LowBits(a / 2, w - 1) && LowBits(b, w)[1..] == LowBits(b / 2, w - 1);
      LowBitsInjective(a / 2, b / 2, w - 1);
    }
  }

  lemma {:induction false} LowBitsPrefix(n: nat, v: nat, w: nat)
    requires v <= w && n < Power(v)
    ensures LowBits(n, w) == LowBits(n, v) + Clear(w - v)
    decreases v
  {
    if v == 0 {
      LowBitsOfZero(w);
      assert LowBits(n, v) == [];
    } else {
      LowBitsPrefix(n / 2, v - 1, w - 1);
    }
  }

  lemma WordOfXor(a: nat, b: nat)
    requires a < 0x1_0000 && b < 0x1_0000
    ensures BitXor(a, b) < 0x1_0000 && Word(BitXor(a, b)) == Xor(Word(a), Word(b))
  {
    PowerValues();
    LowBitsOfXor(a, b, 16);
    BitsStayBelow(a, b, 16);
  }

  lemma WordOfNot(n: nat)
    requires n < 0x1_0000
    ensures Word(0xFFFF - n) == Not(Word(n))
  {
    PowerValues();
    LowBitsOfComplement(n, 16);
  }

  lemma WordOfInit(n: nat)
    requires n == 0xFFFF
    ensures Word(n) == Init()
  {
    hide LowBits;
    LowBitsOfZero(16);
    WordOfNot(0xFFFF - n);
  }

  lemma WordOfByte(b: byte)
    ensures Word(b) == Pad(LowBits(b, 8))
  {
    PowerValues();
    LowBitsPrefix(b, 8, 16);
  }

  /** The number held by a bit string. */
  function Num(bits: seq<bool>): nat {
    if bits == [] then 0 else (if bits[0] then 1 else 0) + 2 * Num(bits[1..])
  }

  lemma {:induction false} LowBitsOfNum(bits: seq<bool>)
    ensures LowBits(Num(bits), |bits|) == bits
  {
    if bits != [] {
      LowBitsOfNum(bits[1..]);
      assert Num(bits) / 2 == Num(bits[1..]);
    }
  }

  lemma NumFrom(r: Register, i: nat)
    requires i < 16
    ensures Num(r[i..]) == (if r[i] then 1 else 0) + 2 * Num(r[i + 1..])
  {}

  /** One hexadecimal digit of a register. */
  function Digit(r: Register, i: nat): nat
    requires i <= 12
  {
    (if r[i] then 1 else 0) + (if r[i + 1] then 2 else 0) + (if r[i + 2] then 4 else 0) + (if r[i + 3] then 8 else 0)
  }

  lemma NumOfDigit(r: Register, i: nat)
    requires i <= 12
    ensures Num(r[i..]) == Digit(r, i) + 16 * Num(r[i + 4..])
  {
    NumFrom(r, i);
    NumFrom(r, i + 1);
    NumFrom(r, i + 2);
    NumFrom(r, i + 3);
  }

  lemma NumOfRegister(r: Register)
    ensures Num(r) == Digit(r, 0) + 16 * (Digit(r, 4) + 16 * (Digit(r, 8) + 16 * Digit(r, 12)))
  {
    assert r[0..] == r && r[16..] == [];
    NumOfDigit(r, 0);
    NumOfDigit(r, 4);
    NumOfDigit(r, 8);
    NumOfDigit(r, 12);
  }

  lemma NumOfPoly()
    ensures Num(Poly()) == 0x8408
  {
    assert Digit(Poly(), 0) == 8 && Digit(Poly(), 4) == 0;
    assert Digit(Poly(), 8) == 4 && Digit(Poly(), 12) == 8;
    NumOfRegister(Poly());
  }

  lemma WordOfPoly(p: nat)
    requires p == 0x8408
    ensures Word(p) == Poly()
  {
    NumOfPoly();
    LowBitsOfNum(Poly());
  }

  lemma XorPoly(n: nat, p: nat)
    requires n < 0x1_0000 && p == 0x8408
    ensures BitXor(n, p) < 0x1_0000 && Word(BitXor(n, p)) == Xor(Word(n), Poly())
  {
    WordOfXor(n, p);
    WordOfPoly(p);
  }

  /** The machine step is the specified step. */
  lemma StepOnWord(n: nat)
    requires n < 0x1_0000
    ensures NumStep(n) < 0x1_0000 && Step(Word(n)) == Word(NumStep(n))
  {
    PowerValues();
    LowBitsOneMore(n, 16);
    assert LowBits(n, 17)[1..] == Word(n / 2);
    assert Shift(Word(n)) == Word(n / 2);
    XorPoly(n / 2, 0x8408);
    assert Word(n)[0] == (n % 2 == 1);
  }

  // ----- feeding up to 16 bits is one exclusive or and as many steps -----

  lemma {:induction false} FeedConcat(r: Register, a: seq<bool>, b: seq<bool>)
    ensures Feed(r, a + b) == Feed(Feed(r, a), b)
    decreases |a|
  {
    if a == [] {
      assert a + b == b;
    } else {
      assert (a + b)[1..] == a[1..] + b;
      FeedConcat(Step(Enter(r, a[0])), a[1..], b);
    }
  }

  /** Bits laid out in a register from position 0, the rest clear. */
  function Pad(bits: seq<bool>): Register
    requires |bits| <= 16
  {
    bits + Clear(16 - |bits|)
  }

  lemma StepLinear(a: Register, b: Register)
    ensures Step(Xor(a, b)) == Xor(Step(a), Step(b))
  {}

  lemma {:induction false} StepsLinear(a: Register, b: Register, n: nat)
    ensures Steps(Xor(a, b), n) == Xor(Steps(a, n), Steps(b, n))
    decreases n
  {
    hide Step, Xor;
    if n > 0 {
      StepLinear(a, b);
      StepsLinear(Step(a), Step(b), n - 1);
    }
  }

  lemma {:induction false} FeedIsXorThenSteps(r: Register, bits: seq<bool>)
    requires |bits| <= 16
    ensures Feed(r, bits) == Steps(Xor(r, Pad(bits)), |bits|)
    decreases |bits|
  {
    hide Step, Pad, Xor, Enter;
    if bits == [] {
      PadOfNothing(r, bits);
    } else {
      FeedIsXorThenSteps(Step(Enter(r, bits[0])), bits[1..]);
      StepTakesOneBit(r, bits);
    }
  }

  lemma PadOfNothing(r: Register, bits: seq<bool>)
    requires bits == []
    ensures Xor(r, Pad(bits)) == r
  {}

  /** Stepping with all bits in place leaves the later bits one position further down. */
  lemma StepTakesOneBit(r: Register, bits: seq<bool>)
    requires 0 < |bits| <= 16
    ensures Step(Xor(r, Pad(bits))) == Xor(Step(Enter(r, bits[0])), Pad(bits[1..]))
  {
    var low, rest := Enter(r, bits[0]), Pad(bits[1..]);
    var lifted: Register := [false] + rest[..15];
    assert Xor(r, Pad(bits)) == Xor(low, lifted);
    StepLinear(low, lifted);
    assert Step(lifted) == rest;
  }

  lemma {:induction false} NumStepsIsSteps(n: nat, k: nat)
    requires n < 0x1_0000
    ensures NumSteps(n, k) < 0x1_0000 && Word(NumSteps(n, k)) == Steps(Word(n), k)
    decreases k
  {
    if k > 0 {
      StepOnWord(n);
      NumStepsIsSteps(NumStep(n), k - 1);
    }
  }

  /** Byte by byte on numbers is bit by bit on registers. */
  lemma {:induction false} NumFeedIsFeed(n: nat, data: seq<byte>)
    requires n < 0x1_0000
    ensures NumFeed(n, data) < 0x1_0000 && Word(NumFeed(n, data)) == Feed(Word(n), Bits(data))
    decreases |data|
  {
    if data != [] {
      var m := BitXor(n, data[0]);
      WordOfXor(n, data[0]);
      WordOfByte(data[0]);
      FeedIsXorThenSteps(Word(n), LowBits(data[0], 8));
      NumStepsIsSteps(m, 8);
      FeedConcat(Word(n), LowBits(data[0], 8), Bits(data[1..]));
      NumFeedIsFeed(NumSteps(m, 8), data[1..]);
    }
  }

  // ----- the step is a bijection -----

  lemma StepInjective(a: Register, b: Register)
    requires Step(a) == Step(b)
    ensures a == b
  {
    assert Step(a)[15] == a[0] && Step(b)[15] == b[0];
    forall i | 0 <= i < 16 ensures a[i] == b[i] {
      if i > 0 { assert Step(a)[i - 1] == Step(b)[i - 1]; }
    }
  }

  lemma {:induction false} StepsInjective(a: Register, b: Register, n: nat)
    requires Steps(a, n) == Steps(b, n)
    ensures a == b
    decreases n
  {
    if n > 0 {
      StepsInjective(Step(a), Step(b), n - 1);
      StepInjective(a, b);
    }
  }

  lemma {:induction false} StepsOfZero(n: nat)
    ensures Steps(Clear(16), n) == Clear(16)
  {
    if n > 0 {
      assert Step(Clear(16)) == Clear(16);
      StepsOfZero(n - 1);
    }
  }

  lemma NonzeroStays(r: Register, n: nat)
    requires r != Clear(16)
    ensures Steps(r, n) != Clear(16)
  {
    if Steps(r, n) == Clear(16) {
      StepsOfZero(n);
      StepsInjective(r, Clear(16), n);
    }
  }

  // ----- linearity -----

  lemma {:induction false} FeedLinear(r: Register, q: Register, a: seq<bool>, b: seq<bool>)
    requires |a| == |b|
    ensures Feed(Xor(r, q), Xor(a, b)) == Xor(Feed(r, a), Feed(q, b))
    decreases |a|
  {
    if a != [] {
      assert Xor(a, b)[1..] == Xor(a[1..], b[1..]);
      assert Enter(Xor(r, q), Xor(a, b)[0]) == Xor(Enter(r, a[0]), Enter(q, b[0]));
      StepLinear(Enter(r, a[0]), Enter(q, b[0]));
      FeedLinear(Step(Enter(r, a[0])), Step(Enter(q, b[0])), a[1..], b[1..]);
    }
  }

  /** Byte-wise exclusive or. */
  function XorBytes(a: seq<byte>, b: seq<byte>): (s: seq<byte>)
    requires |a| == |b|
    ensures |s| == |a|
  {
    if a == [] then [] else
      PowerValues();
      BitsStayBelow(a[0], b[0], 8);
      [BitXor(a[0], b[0])] + XorBytes(a[1..], b[1..])
  }

  lemma {:induction false} BitsOfXor(a: seq<byte>, b: seq<byte>)
    requires |a| == |b|
    ensures Bits(XorBytes(a, b)) == Xor(Bits(a), Bits(b))
    decreases |a|
  {
    if a != [] {
      BitsOfXor(a[1..], b[1..]);
      LowBitsOfXor(a[0], b[0], 8);
    }
  }

  /** The CRC of a three-way exclusive or of equally long messages is that of their CRCs. */
  lemma CrcAffine(a: seq<byte>, b: seq<byte>, c: seq<byte>)
    requires |a| == |b| == |c|
    ensures 0 <= NumCrc(a) && 0 <= NumCrc(b) && 0 <= NumCrc(c)
    ensures NumCrc(XorBytes(XorBytes(a, b), c)) == BitXor(BitXor(NumCrc(a), NumCrc(b)), NumCrc(c))
  {
    var abc := XorBytes(XorBytes(a, b), c);
    hide NumCrc, Value, Word, XorBytes, BitXor;
    CrcIsShiftRegister(a);
    CrcIsShiftRegister(b);
    CrcIsShiftRegister(c);
    CrcIsShiftRegister(abc);
    ValueAffine(a, b, c);
    WordOfXor(NumCrc(a), NumCrc(b));
    WordOfXor(BitXor(NumCrc(a), NumCrc(b)), NumCrc(c));
    WordInjective(NumCrc(abc), BitXor(BitXor(NumCrc(a), NumCrc(b)), NumCrc(c)));
  }

  lemma WordInjective(a: nat, b: nat)
    requires a < 0x1_0000 && b < 0x1_0000 && Word(a) == Word(b)
    ensures a == b
  {
    PowerValues();
    LowBitsInjective(a, b, 16);
  }

  lemma ValueAffine(a: seq<byte>, b: seq<byte>, c: seq<byte>)
    requires |a| == |b| == |c|
    ensures Value(XorBytes(XorBytes(a, b), c)) == Xor(Xor(Value(a), Value(b)), Value(c))
  {
    BitsOfXor(a, b);
    BitsOfXor(XorBytes(a, b), c);
    FeedLinear(Init(), Init(), Bits(a), Bits(b));
    FeedLinear(Xor(Init(), Init()), Init(), Bits(XorBytes(a, b)), Bits(c));
    assert Xor(Xor(Init(), Init()), Init()) == Init();
  }

  // ----- burst detection -----

  lemma {:induction false} BitsInjective(x: seq<byte>, y: seq<byte>)
    requires |x| == |y| && Bits(x) == Bits(y)
    ensures x == y
    decreases |x|
  {
    if x != [] {
      assert LowBits(x[0], 8) == Bits(x)[..8] && Bits(x[1..]) == Bits(x)[8..];
      assert LowBits(y[0], 8) == Bits(y)[..8] && Bits(y[1..]) == Bits(y)[8..];
      PowerValues();
      LowBitsInjective(x[0], y[0], 8);
      BitsInjective(x[1..], y[1..]);
      assert x == [x[0]] + x[1..] && y == [y[0]] + y[1..];
    }
  }

  lemma {:induction false} ClearBitsOnlyStep(r: Register, bits: seq<bool>)
    requires forall i :: 0 <= i < |bits| ==> !bits[i]
    ensures Feed(r, bits) == Steps(r, |bits|)
    decreases |bits|
  {
    if bits != [] {
      assert Enter(r, bits[0]) == r;
      ClearBitsOnlyStep(Step(r), bits[1..]);
    }
  }

  lemma FeedThree(r: Register, a: seq<bool>, b: seq<bool>, c: seq<bool>)
    ensures Feed(r, a + b + c) == Feed(Feed(Feed(r, a), b), c)
  {
    FeedConcat(r, a + b, c);
    FeedConcat(r, a, b);
  }

  /** What a pattern surrounded by clear bits leaves in the zero register. */
  lemma Surrounded(before: seq<bool>, mid: seq<bool>, after: seq<bool>)
    requires forall i :: 0 <= i < |before| ==> !before[i]
    requires forall i :: 0 <= i < |after| ==> !after[i]
    ensures Feed(Clear(16), before + mid + after) == Steps(Feed(Clear(16), mid), |after|)
  {
    FeedThree(Clear(16), before, mid, after);
    ClearBitsOnlyStep(Clear(16), before);
    StepsOfZero(|before|);
    ClearBitsOnlyStep(Feed(Clear(16), mid), after);
  }

  lemma ShortPatternIsNonzero(mid: seq<bool>, i: nat)
    requires |mid| <= 16 && i < |mid| && mid[i]
    ensures Feed(Clear(16), mid) != Clear(16)
  {
    FeedIsXorThenSteps(Clear(16), mid);
    assert Xor(Clear(16), Pad(mid)) == Pad(mid);
    assert Pad(mid)[i] && !Clear(16)[i];
    NonzeroStays(Pad(mid), |mid|);
  }

  /** A nonzero difference confined to 16 consecutive bits never cancels out. */
  lemma BurstNeverVanishes(d: seq<bool>, k: nat, i: nat)
    requires i < |d| && d[i]
    requires forall j :: 0 <= j < |d| && !(k <= j < k + 16) ==> !d[j]
    ensures Feed(Clear(16), d) != Clear(16)
  {
    hide Feed, Steps;
    var m := if k + 16 <= |d| then k + 16 else |d|;
    assert d == d[..k] + d[k..m] + d[m..];
    Surrounded(d[..k], d[k..m], d[m..]);
    ShortPatternIsNonzero(d[k..m], i - k);
    NonzeroStays(Feed(Clear(16), d[k..m]), |d[m..]|);
  }

  lemma XorClearMeansSame(p: Register, q: Register)
    ensures Xor(p, q) == Clear(16) <==> p == q
  {}

  lemma NotInjective(p: Register, q: Register)
    requires Not(p) == Not(q)
    ensures p == q
  {}

  lemma SameCrcMeansVanishing(x: seq<byte>, y: seq<byte>)
    requires |x| == |y|
    ensures Value(x) == Value(y) <==> Feed(Clear(16), Xor(Bits(x), Bits(y))) == Clear(16)
  {
    var p, q := Feed(Init(), Bits(x)), Feed(Init(), Bits(y));
    FeedLinear(Init(), Init(), Bits(x), Bits(y));
    XorClearMeansSame(Init(), Init());
    XorClearMeansSame(p, q);
    if Not(p) == Not(q) { NotInjective(p, q); }
  }

  /** Two different messages of one length that agree outside 16 consecutive bits, in
      transmission order, have different CRCs. */
  lemma BurstDetected(x: seq<byte>, y: seq<byte>, k: nat)
    requires |x| == |y| && x != y
    requires forall i :: 0 <= i < 8 * |x| && !(k <= i < k + 16) ==> Bits(x)[i] == Bits(y)[i]
    ensures NumCrc(x) != NumCrc(y)
  {
    hide NumCrc, Value, Word, Bits, Xor, Feed;
    CrcIsShiftRegister(x);
    CrcIsShiftRegister(y);
    if Bits(x) == Bits(y) { BitsInjective(x, y); }
    var i :| 0 <= i < 8 * |x| && Bits(x)[i] != Bits(y)[i];
    SameCrcMeansVanishing(x, y);
    BurstNeverVanishes(Xor(Bits(x), Bits(y)), k, i);
  }

  /** Sixteen is the best possible: the generator itself is a burst of 17 bits that the CRC
      misses, wherever in a message it starts. */
  lemma SeventeenBitBurstMissed(x: seq<byte>, y: seq<byte>, k: nat)
    requires |x| == |y| && k + 17 <= 8 * |x|
    requires forall i :: 0 <= i < 8 * |x| ==>
      ((Bits(x)[i] != Bits(y)[i]) <==> i == k || i == k + 4 || i == k + 11 || i == k + 16)
    ensures NumCrc(x) == NumCrc(y)
  {
    hide NumCrc, Value, Word, Bits, Xor, Feed, Steps;
    CrcIsShiftRegister(x);
    CrcIsShiftRegister(y);
    if Value(x) == Value(y) { WordInjective(NumCrc(x), NumCrc(y)); }
    var d := Xor(Bits(x), Bits(y));
    assert d == d[..k] + d[k..k + 17] + d[k + 17..];
    Surrounded(d[..k], d[k..k + 17], d[k + 17..]);
    GeneratorVanishes(d[k..k + 17]);
    StepsOfZero(|d[k + 17..]|);
    SameCrcMeansVanishing(x, y);
  }

  lemma GeneratorVanishes(g: seq<bool>)
    requires |g| == 17 && forall i :: 0 <= i < 17 ==> (g[i] <==> i == 0 || i == 4 || i == 11 || i == 16)
    ensures Feed(Clear(16), g) == Clear(16)
  {
    var tail := g[1..];
    assert Step(Enter(Clear(16), true)) == Poly();
    assert tail == Poly();
    assert Feed(Clear(16), g) == Feed(Poly(), tail);
    hide Feed, Step, Steps, Pad, Poly;
    FeedIsXorThenSteps(Poly(), tail);
    PadOfFull(tail);
    XorSelf(Poly());
    StepsOfZero(16);
  }

  lemma PadOfFull(bits: seq<bool>)
    requires |bits| == 16
    ensures Pad(bits) == bits
  {}

  lemma XorSelf(r: Register)
    ensures Xor(r, r) == Clear(16)
  {}

  // ----- parity -----

  /** Whether an odd number of bits is set. */
  predicate Odd(bits: seq<bool>) {
    bits != [] && (bits[0] != Odd(bits[1..]))
  }

  lemma {:induction false} OddOfConcat(a: seq<bool>, b: seq<bool>)
    ensures Odd(a + b) == (Odd(a) != Odd(b))
    decreases |a|
  {
    if a == [] {
      assert a + b == b;
    } else {
      assert (a + b)[1..] == a[1..] + b;
      OddOfConcat(a[1..], b);
    }
  }

  lemma {:induction false} OddOfXor(a: seq<bool>, b: seq<bool>)
    requires |a| == |b|
    ensures Odd(Xor(a, b)) == (Odd(a) != Odd(b))
    decreases |a|
  {
    if a != [] {
      assert Xor(a, b)[1..] == Xor(a[1..], b[1..]);
      OddOfXor(a[1..], b[1..]);
    }
  }

  lemma {:induction false} ClearIsEven(bits: seq<bool>)
    requires forall i :: 0 <= i < |bits| ==> !bits[i]
    ensures !Odd(bits)
    decreases |bits|
  {
    if bits != [] { ClearIsEven(bits[1..]); }
  }

  lemma PolyIsOdd()
    ensures Odd(Poly())
  {
    var p := Poly();
    ClearIsEven(p[..3]);
    ClearIsEven(p[4..10]);
    ClearIsEven(p[11..15]);
    assert p == p[..3] + ([true] + (p[4..10] + ([true] + (p[11..15] + [true]))));
    OddOfConcat(p[..3], [true] + (p[4..10] + ([true] + (p[11..15] + [true]))));
    OddOfConcat([true], p[4..10] + ([true] + (p[11..15] + [true])));
    OddOfConcat(p[4..10], [true] + (p[11..15] + [true]));
    OddOfConcat([true], p[11..15] + [true]);
    OddOfConcat(p[11..15], [true]);
    assert Odd([true]);
  }

  lemma StepKeepsParity(r: Register)
    ensures Odd(Step(r)) == Odd(r)
  {
    OddOfConcat(r[1..], [false]);
    assert !Odd([false]);
    PolyIsOdd();
    OddOfXor(Shift(r), Poly());
  }

  lemma EnterParity(r: Register, b: bool)
    ensures Odd(Enter(r, b)) == (Odd(r) != b)
  {}

  lemma {:induction false} FeedParity(r: Register, bits: seq<bool>)
    ensures Odd(Feed(r, bits)) == (Odd(r) != Odd(bits))
    decreases |bits|
  {
    if bits != [] {
      StepKeepsParity(Enter(r, bits[0]));
      EnterParity(r, bits[0]);
      FeedParity(Step(Enter(r, bits[0])), bits[1..]);
    }
  }

  /** The CRC has the parity of the message. */
  lemma CrcParity(data: seq<byte>)
    ensures NumCrc(data) >= 0 && Odd(Word(NumCrc(data))) == Odd(Bits(data))
  {
    CrcIsShiftRegister(data);
    ValueParity(data);
  }

  lemma ValueParity(data: seq<byte>)
    ensures Odd(Value(data)) == Odd(Bits(data))
  {
    var r := Feed(Init(), Bits(data));
    FeedParity(Init(), Bits(data));
    OddOfXor(Init(), r);
    assert Value(data) == Xor(Init(), r);
  }

  /** Any odd number of flipped bits, wherever they are, changes the CRC. */
  lemma OddFlipsDetected(x: seq<byte>, y: seq<byte>)
    requires |x| == |y| && Odd(Xor(Bits(x), Bits(y)))
    ensures NumCrc(x) != NumCrc(y)
  {
    hide NumCrc, Bits, Odd;
    CrcParity(x);
    CrcParity(y);
    OddOfXor(Bits(x), Bits(y));
  }

  // ----- residue -----

  lemma StepIs(a: Register, b: Register)
    requires forall i :: 0 <= i < 16 ==>
      b[i] == ((i < 15 && a[i + 1]) != (a[0] && (i == 3 || i == 10 || i == 15)))
    ensures Step(a) == b
  {}

  lemma FourSteps(a: Register, b: Register, c: Register, d: Register, e: Register)
    requires Step(a) == b && Step(b) == c && Step(c) == d && Step(d) == e
    ensures Steps(a, 4) == e
  {
    assert Steps(a, 4) == Steps(b, 3);
    assert Steps(b, 3) == Steps(c, 2);
    assert Steps(c, 2) == Steps(d, 1);
    assert Steps(d, 1) == Steps(e, 0);
  }

  lemma ResidueQuarter1(a: Register, e: Register)
    requires forall i :: 0 <= i < 16 ==> a[i]
    requires forall i :: 0 <= i < 16 ==>
      e[i] == (i == 4 || i == 5 || i == 6 || i == 11 || i == 12 || i == 13 || i == 14 || i == 15)
    ensures Steps(a, 4) == e
  {
    hide Step, Steps;
    var b: Register := seq(16, i => !(i == 3 || i == 10));
    var c: Register := seq(16, i => !(i == 2 || i == 3 || i == 9 || i == 10));
    var d: Register := seq(16, i => !(i == 1 || i == 2 || i == 3 || i == 8 || i == 9 || i == 10));
    StepIs(a, b);
    StepIs(b, c);
    StepIs(c, d);
    StepIs(d, e);
    FourSteps(a, b, c, d, e);
  }

  lemma ResidueQuarter2(a: Register, e: Register)
    requires forall i :: 0 <= i < 16 ==>
      a[i] == (i == 4 || i == 5 || i == 6 || i == 11 || i == 12 || i == 13 || i == 14 || i == 15)
    requires forall i :: 0 <= i < 16 ==>
      e[i] == (i == 0 || i == 1 || i == 2 || i == 7 || i == 8 || i == 9 || i == 10 || i == 11)
    ensures Steps(a, 4) == e
  {
    hide Step, Steps;
    var b: Register := seq(16, i => i == 3 || i == 4 || i == 5 || i == 10 || i == 11 || i == 12 || i == 13 || i == 14);
    var c: Register := seq(16, i => i == 2 || i == 3 || i == 4 || i == 9 || i == 10 || i == 11 || i == 12 || i == 13);
    var d: Register := seq(16, i => i == 1 || i == 2 || i == 3 || i == 8 || i == 9 || i == 10 || i == 11 || i == 12);
    StepIs(a, b);
    StepIs(b, c);
    StepIs(c, d);
    StepIs(d, e);
    FourSteps(a, b, c, d, e);
  }

  lemma ResidueQuarter3(a: Register, e: Register)
    requires forall i :: 0 <= i < 16 ==>
      a[i] == (i == 0 || i == 1 || i == 2 || i == 7 || i == 8 || i == 9 || i == 10 || i == 11)
    requires forall i :: 0 <= i < 16 ==> e[i] == (!(i == 7 || i == 10 || i == 11 || i == 15))
    ensures Steps(a, 4) == e
  {
    hide Step, Steps;
    var b: Register := seq(16, i => i == 0 || i == 1 || i == 3 || i == 6 || i == 7 || i == 8 || i == 9 || i == 15);
    var c: Register := seq(16, i => !(i == 1 || i == 4 || i == 9 || i == 11 || i == 12 || i == 13));
    var d: Register := seq(16, i => !(i == 0 || i == 8 || i == 11 || i == 12));
    StepIs(a, b);
    StepIs(b, c);
    StepIs(c, d);
    StepIs(d, e);
    FourSteps(a, b, c, d, e);
  }

  lemma ResidueQuarter4(a: Register, e: Register)
    requires forall i :: 0 <= i < 16 ==> a[i] == (!(i == 7 || i == 10 || i == 11 || i == 15))
    requires forall i :: 0 <= i < 16 ==>
      e[i] == (i == 3 || i == 4 || i == 5 || i == 7 || i == 12 || i == 13 || i == 14 || i == 15)
    ensures Steps(a, 4) == e
  {
    hide Step, Steps;
    var b: Register := seq(16, i => !(i == 3 || i == 6 || i == 9 || i == 14));
    var c: Register := seq(16, i => !(i == 2 || i == 3 || i == 5 || i == 8 || i == 10 || i == 13));
    var d: Register := seq(16, i => i == 0 || i == 5 || i == 6 || i == 8 || i == 11 || i == 13 || i == 14 || i == 15);
    StepIs(a, b);
    StepIs(b, c);
    StepIs(c, d);
    StepIs(d, e);
    FourSteps(a, b, c, d, e);
  }

  lemma {:induction false} StepsAdd(r: Register, m: nat, n: nat)
    ensures Steps(r, m + n) == Steps(Steps(r, m), n)
    decreases m
  {
    if m > 0 { StepsAdd(Step(r), m - 1, n); }
  }

  /** The good-FCS value 0xF0B8 of Appendix C.2 of RFC 1662. */
  function Residue(): (r: Register)
    ensures forall i :: 0 <= i < 16 ==>
      r[i] == (i == 3 || i == 4 || i == 5 || i == 7 || i == 12 || i == 13 || i == 14 || i == 15)
  {
    seq(16, i => i == 3 || i == 4 || i == 5 || i == 7 || i == 12 || i == 13 || i == 14 || i == 15)
  }

  lemma ResidueIsF0B8()
    ensures Num(Residue()) == 0xF0B8
  {
    NumOfRegister(Residue());
  }

  /** Sixteen steps from the all-ones register. */
  lemma ResidueOfOnes()
    ensures Steps(Init(), 16) == Residue()
  {
    var a: Register := seq(16, i => i == 4 || i == 5 || i == 6 || i == 11 || i == 12 || i == 13 || i == 14 || i == 15);
    var b: Register := seq(16, i => i == 0 || i == 1 || i == 2 || i == 7 || i == 8 || i == 9 || i == 10 || i == 11);
    var c: Register := seq(16, i => i != 7 && i != 10 && i != 11 && i != 15);
    ResidueQuarter1(Init(), a);
    ResidueQuarter2(a, b);
    ResidueQuarter3(b, c);
    ResidueQuarter4(c, Residue());
    StepsAdd(Init(), 4, 12);
    StepsAdd(a, 4, 8);
    StepsAdd(b, 4, 4);
  }

  lemma {:induction false} BitsConcat(a: seq<byte>, b: seq<byte>)
    ensures Bits(a + b) == Bits(a) + Bits(b)
    decreases |a|
  {
    if a == [] {
      assert a + b == b;
    } else {
      assert (a + b)[1..] == a[1..] + b;
      BitsConcat(a[1..], b);
    }
  }

  lemma OnesOnlyFromComplement(r: Register, w: Register)
    ensures Xor(r, w) == Init() <==> w == Not(r)
  {}

  /** Two appended bytes leave the register of the loops at 0xF0B8, the good-FCS value of Appendix
      C.2 of RFC 1662, exactly when they are the message's own CRC, low byte first. */
  lemma ResidueIffOwnCrc(data: seq<byte>, lo: byte, hi: byte)
    ensures NumFeed(0xFFFF, data + [lo, hi]) == 0xF0B8 <==> lo == NumCrc(data) % 256 && hi == NumCrc(data) / 256
  {
    CrcIsShiftRegister(data);
    RegisterOf(0xFFFF, data + [lo, hi]);
    ResidueBits(data, lo, hi);
    WordOfResidue(0xF0B8);
    WordInjectiveIff(NumFeed(0xFFFF, data + [lo, hi]), 0xF0B8);
    WordOfBytes(NumCrc(data), lo, hi);
  }

  lemma RegisterOf(n: nat, data: seq<byte>)
    requires n == 0xFFFF
    ensures NumFeed(n, data) < 0x1_0000 && Word(NumFeed(n, data)) == Feed(Init(), Bits(data))
  {
    hide Word, NumFeed, Feed, Init, Bits;
    NumFeedIsFeed(n, data);
    WordOfInit(n);
  }

  lemma WordOfResidue(n: nat)
    requires n == 0xF0B8
    ensures Word(n) == Residue()
  {
    ResidueIsF0B8();
    LowBitsOfNum(Residue());
  }

  lemma WordInjectiveIff(a: nat, b: nat)
    requires a < 0x1_0000 && b < 0x1_0000
    ensures Word(a) == Word(b) <==> a == b
  {
    if Word(a) == Word(b) { WordInjective(a, b); }
  }

  /** A 16-bit number as its two bytes, low byte first. */
  lemma WordOfBytes(n: nat, lo: byte, hi: byte)
    requires n < 0x1_0000
    ensures LowBits(lo, 8) + LowBits(hi, 8) == Word(n) <==> lo == n % 256 && hi == n / 256
  {
    hide LowBits, Power;
    PowerValues();
    LowBitsJoin(n % 256, n / 256, 8, 8);
    if LowBits(lo, 8) + LowBits(hi, 8) == Word(n) {
      SplitPair(LowBits(lo, 8), LowBits(hi, 8), LowBits(n % 256, 8), LowBits(n / 256, 8));
      LowBitsInjective(lo, n % 256, 8);
      LowBitsInjective(hi, n / 256, 8);
    }
  }

  lemma SplitPair(a: seq<bool>, b: seq<bool>, c: seq<bool>, d: seq<bool>)
    requires |a| == |c| && a + b == c + d
    ensures a == c && b == d
  {
    assert a == (a + b)[..|a|] && b == (a + b)[|a|..];
  }

  lemma {:induction false} LowBitsJoin(lo: nat, hi: nat, v: nat, w: nat)
    requires lo < Power(v)
    ensures LowBits(lo + Power(v) * hi, v + w) == LowBits(lo, v) + LowBits(hi, w)
    decreases v
  {
    if v == 0 {
      PowerOfZero();
      assert LowBits(lo, 0) == [];
    } else {
      var m := Power(v - 1) * hi;
      PowerTimes(v, hi);
      SumHalves(lo, m);
      LowBitsStep(lo + 2 * m, v + w);
      LowBitsStep(lo, v);
      hide LowBits, Power;
      LowBitsJoin(lo / 2, hi, v - 1, w);
    }
  }

  lemma PowerOfZero()
    ensures Power(0) == 1
  {}

  lemma PowerTimes(v: nat, hi: nat)
    requires v > 0
    ensures Power(v) == 2 * Power(v - 1) && Power(v) * hi == 2 * (Power(v - 1) * hi)
  {}

  lemma SumHalves(lo: nat, m: nat)
    ensures (lo + 2 * m) / 2 == lo / 2 + m && (lo + 2 * m) % 2 == lo % 2
  {}

  lemma ResidueBits(data: seq<byte>, lo: byte, hi: byte)
    ensures Feed(Init(), Bits(data + [lo, hi])) == Residue()
       <==> LowBits(lo, 8) + LowBits(hi, 8) == Value(data)
  {
    var r, w := Feed(Init(), Bits(data)), LowBits(lo, 8) + LowBits(hi, 8);
    BitsConcat(data, [lo, hi]);
    FeedConcat(Init(), Bits(data), Bits([lo, hi]));
    TwoBytes(lo, hi);
    FeedIsXorThenSteps(r, w);
    ResidueOfOnes();
    if Steps(Xor(r, w), 16) == Residue() { StepsInjective(Xor(r, w), Init(), 16); }
    OnesOnlyFromComplement(r, w);
  }

  lemma TwoBytes(lo: byte, hi: byte)
    ensures Bits([lo, hi]) == LowBits(lo, 8) + LowBits(hi, 8)
    ensures Pad(Bits([lo, hi])) == Bits([lo, hi])
  {}
}
