/** The login body and its encoder (internal/protocol/login.go, cmd/toy/main.go). Go strings are
    byte strings here, so an IMEI is its ASCII digits. */
module Login {
  import opened Bytes

  const ZERO: byte := 0x30

  datatype ParsedLogin = LoginError | Imei(digits: seq<byte>)

  predicate IsDigits(s: seq<byte>) { forall i :: 0 <= i < |s| ==> ZERO <= s[i] <= ZERO + 9 }

  /** A nibble above nine counts as zero. */
  function DigitOf(n: int): (d: byte)
    requires 0 <= n < 16
    ensures ZERO <= d <= ZERO + 9
  {
    if n > 9 then ZERO else ZERO + n
  }

  function Digits(b: seq<byte>): (s: seq<byte>)
    ensures |s| == 2 * |b| && IsDigits(s)
    ensures forall i :: 0 <= i < |b| ==> s[2 * i] == DigitOf(b[i] / 16) && s[2 * i + 1] == DigitOf(b[i] % 16)
  {
    if b == [] then []
    else Digits(b[..|b| - 1]) + [DigitOf(b[|b| - 1] / 16), DigitOf(b[|b| - 1] % 16)]
  }

  lemma DigitsSnoc(b: seq<byte>, i: nat)
    requires i < |b|
    ensures Digits(b[..i + 1]) == Digits(b[..i]) + [DigitOf(b[i] / 16), DigitOf(b[i] % 16)]
  {
    assert b[..i + 1][..i] == b[..i];
  }

  /** Sixteen digits less a leading zero, or less the last one. */
  function Parse(body: seq<byte>): ParsedLogin {
    if |body| < 8 then LoginError else
      var s := Digits(body[..8]);
      Imei(if s[0] == ZERO then s[1..] else s[..15])
  }

  method ParseLogin(body: seq<byte>) returns (r: ParsedLogin)
    ensures r == Parse(body)
  {
    if |body| < 8 {
      return LoginError;
    }
    var bcd := body[..8];
    var s := ReadDigits(bcd);
    if |s| == 16 && s[0] == ZERO {
      s := s[1..];
    }
    if |s| == 16 && (s[15] == ZERO || s[15] == 0x46 || s[15] == 0x66) {
      s := s[..15];
    }
    if |s| < 15 {
      assert false;
    }
    r := Imei(s[..15]);
  }

  /** The body of the digit loop. */
  method ReadPair(b: byte) returns (d: byte, e: byte)
    ensures d == DigitOf(b / 16) && e == DigitOf(b % 16)
  {
    var high, low := b / 16, b % 16;
    if high > 9 {
      high := 0;
    }
    if low > 9 {
      low := 0;
    }
    d, e := ZERO + high, ZERO + low;
  }

  /** The digit loop of ParseLogin. */
  method ReadDigits(bcd: seq<byte>) returns (raw: seq<byte>)
    ensures raw == Digits(bcd)
  {
    hide DigitOf, IsDigits;
    raw := [];
    var i := 0;
    while i < |bcd|
      invariant 0 <= i <= |bcd|
      invariant raw == Digits(bcd[..i])
    {
      var high, low := ReadPair(bcd[i]);
      DigitsSnoc(bcd, i);
      raw := raw + [high, low];
      i := i + 1;
    }
    assert bcd[..i] == bcd;
  }

  /** Every body of eight bytes or more yields exactly fifteen decimal digits. */
  lemma AlwaysFifteenDigits(body: seq<byte>)
    ensures |body| >= 8 <==> Parse(body).Imei?
    ensures |body| >= 8 ==> |Parse(body).digits| == 15 && IsDigits(Parse(body).digits)
  {}

  /** The i-th nibble of a block, high nibbles first; above nine it counts as zero. */
  function Nibble(b: seq<byte>, i: nat): int
    requires i < 2 * |b|
  {
    var n := if i % 2 == 0 then b[i / 2] / 16 else b[i / 2] % 16;
    if n <= 9 then n else 0
  }

  /** Every identity, nibble by nibble: if the first of the sixteen counts as zero, the other fifteen;
      otherwise the first fifteen. */
  lemma ImeiInNibbles(body: seq<byte>, i: nat)
    requires |body| >= 8 && i < 15
    ensures Parse(body).Imei? && |Parse(body).digits| == 15
    ensures Parse(body).digits[i] == 0x30 + if Nibble(body, 0) == 0 then Nibble(body, i + 1) else Nibble(body, i)
  {
    var s := Digits(body[..8]);
    forall j | 0 <= j < 16 ensures s[j] == 0x30 + Nibble(body, j) { DigitIsNibble(body, j); }
  }

  lemma DigitIsNibble(body: seq<byte>, j: nat)
    requires |body| >= 8 && j < 16
    ensures Digits(body[..8])[j] == 0x30 + Nibble(body, j)
  {
    assert j == 2 * (j / 2) || j == 2 * (j / 2) + 1;
    assert body[..8][j / 2] == body[j / 2];
  }

  // ----- the encoder -----

  /** hi<<4 | lo on the two bytes left by subtracting '0'. */
  function PackPair(a: byte, b: byte): byte {
    var hi, lo := ToByte(a - ZERO), ToByte(b - ZERO);
    OrIsByte(ToByte(hi * 16), lo);
    BitOr(ToByte(hi * 16), lo)
  }

  lemma OrIsByte(a: byte, b: byte)
    ensures BitOr(a, b) < 256
  {
    PowerValues();
    BitsStayBelow(a, b, 8);
  }

  function PackPairs(s: seq<byte>): (b: seq<byte>)
    requires |s| % 2 == 0
    ensures |b| == |s| / 2
    ensures forall i :: 0 <= i < |b| ==> b[i] == PackPair(s[2 * i], s[2 * i + 1])
  {
    seq(|s| / 2, i requires 0 <= i < |s| / 2 => PackPair(s[2 * i], s[2 * i + 1]))
  }

  datatype Bcd = Fatal | Block(bytes: seq<byte>)

  /** Fifteen characters get a leading zero; any other length but sixteen is fatal. */
  function ToBcd(imei: seq<byte>): (r: Bcd)
    ensures r.Block? <==> |imei| == 15 || |imei| == 16
    ensures r.Block? ==> |r.bytes| == 8
  {
    var s := if |imei| == 15 then [ZERO] + imei else imei;
    if |s| != 16 then Fatal else Block(PackPairs(s))
  }

  method ImeiToBCD(imei: seq<byte>) returns (r: Bcd)
    ensures r == ToBcd(imei)
  {
    hide PackPair;
    var s := imei;
    if |s| == 15 {
      s := [ZERO] + s;
    }
    if |s| != 16 {
      return Fatal;
    }
    var out := new byte[8];
    var i := 0;
    while i < 8
      invariant 0 <= i <= 8
      invariant forall j :: 0 <= j < i ==> out[j] == PackPair(s[2 * j], s[2 * j + 1])
    {
      out[i] := PackPair(s[i * 2], s[i * 2 + 1]);
      i := i + 1;
    }
    assert out[..] == PackPairs(s);
    r := Block(out[..]);
  }

  // ----- round trips -----

  lemma OrTwice(h: nat, l: nat)
    requires BitOr(h, l / 2) == h + l / 2
    ensures BitOr(2 * h, l) == 2 * h + l
  {}

  lemma OrNibble(h: nat, l: nat)
    requires l < 16
    ensures BitOr(16 * h, l) == 16 * h + l
  {
    assert l / 2 / 2 / 2 / 2 == 0;
    OrTwice(h, l / 2 / 2 / 2);
    OrTwice(2 * h, l / 2 / 2);
    OrTwice(4 * h, l / 2);
    OrTwice(8 * h, l);
  }

  lemma PackDigits(a: byte, b: byte)
    requires ZERO <= a <= ZERO + 9 && ZERO <= b <= ZERO + 9
    ensures PackPair(a, b) == 16 * (a - ZERO) + (b - ZERO)
  {
    hide BitOr;
    assert ToByte(a - ZERO) == a - ZERO && ToByte(b - ZERO) == b - ZERO;
    assert ToByte((a - ZERO) * 16) == 16 * (a - ZERO);
    OrNibble(a - ZERO, b - ZERO);
  }

  /** Encoding fifteen digits and parsing the block, with anything behind it, gives them back. */
  lemma ImeiRoundTrip(imei: seq<byte>, more: seq<byte>)
    requires |imei| == 15 && IsDigits(imei)
    ensures ToBcd(imei).Block? && Parse(ToBcd(imei).bytes + more) == Imei(imei)
  {
    var s, block := [ZERO] + imei, ToBcd(imei).bytes;
    assert (block + more)[..8] == block;
    assert IsDigits(s);
    DigitsOfPacked(s);
    assert s[1..] == imei;
  }

  lemma DigitsOfPacked(s: seq<byte>)
    requires |s| % 2 == 0 && IsDigits(s)
    ensures Digits(PackPairs(s)) == s
  {
    hide PackPair, Digits, PackPairs, DigitOf, IsDigits;
    forall i | 0 <= i < |s| ensures Digits(PackPairs(s))[i] == s[i] {
      PairBack(s, i / 2);
      assert i == 2 * (i / 2) || i == 2 * (i / 2) + 1;
    }
  }

  lemma PairBack(s: seq<byte>, j: nat)
    requires |s| % 2 == 0 && IsDigits(s) && 2 * j + 1 < |s|
    ensures Digits(PackPairs(s))[2 * j] == s[2 * j] && Digits(PackPairs(s))[2 * j + 1] == s[2 * j + 1]
  {
    assert ZERO <= s[2 * j] <= ZERO + 9 && ZERO <= s[2 * j + 1] <= ZERO + 9;
    PackDigits(s[2 * j], s[2 * j + 1]);
  }

  /** All nibbles are decimal and the first is the filler zero. */
  predicate FilledBcd(b: seq<byte>) {
    |b| == 8 && b[0] < 16 && forall i :: 0 <= i < 8 ==> b[i] / 16 <= 9 && b[i] % 16 <= 9
  }

  lemma EncodedIsFilled(imei: seq<byte>)
    requires |imei| == 15 && IsDigits(imei)
    ensures FilledBcd(ToBcd(imei).bytes)
  {
    hide PackPair;
    var s, b := [ZERO] + imei, ToBcd(imei).bytes;
    forall i | 0 <= i < 8 ensures b[i] == 16 * (s[2 * i] - ZERO) + (s[2 * i + 1] - ZERO) {
      assert ZERO <= s[2 * i] <= ZERO + 9 && ZERO <= s[2 * i + 1] <= ZERO + 9;
      PackDigits(s[2 * i], s[2 * i + 1]);
    }
  }

  /** The reverse direction, exactly: a block comes back from its parsed digits if and only if it is
      BCD with a leading zero nibble. */
  lemma BlockRoundTripIff(b: seq<byte>)
    requires |b| == 8
    ensures ToBcd(Parse(b).digits) == Block(b) <==> FilledBcd(b)
  {
    AlwaysFifteenDigits(b);
    EncodedIsFilled(Parse(b).digits);
    assert b[..8] == b;
    if FilledBcd(b) {
      var d := Digits(b);
      assert [ZERO] + d[1..] == d;
      forall i | 0 <= i < 8 ensures PackPairs(d)[i] == b[i] {
        PackDigits(d[2 * i], d[2 * i + 1]);
      }
      assert PackPairs(d) == b;
    }
  }
}
