/** The Wi-Fi/LBS body byte by byte: header search and parser stated on offsets and numbers alone
    (internal/protocol/wifilbs.go). */
module WifiNumbers {
  import opened Bytes
  import opened Numbers
  import W = WifiLbs

  // ----- the header -----

  /** A count of 1 to 6 and behind it a big-endian country code of 1 to 999. */
  predicate CountAndMcc(rest: seq<byte>, i: nat) {
    i + 2 < |rest| && 1 <= rest[i] <= 6 && 1 <= Two(rest[i + 1], rest[i + 2]) <= 999
  }

  /** And behind that a network code and room for the cells at six bytes each. */
  predicate Fits(rest: seq<byte>, i: nat) {
    CountAndMcc(rest, i) && i + 4 + 6 * rest[i] <= |rest|
  }

  /** s is the first position that fits, or -1 if there is none. */
  predicate FirstFit(rest: seq<byte>, s: int) {
    if s < 0 then s == -1 && forall i :: 0 <= i < |rest| ==> !Fits(rest, i)
    else Fits(rest, s) && forall i :: 0 <= i < s ==> !Fits(rest, i)
  }

  lemma HeaderIsFit(rest: seq<byte>, i: nat)
    ensures W.HeaderAt(rest, i) <==> Fits(rest, i)
  {}

  /** The search returns exactly that position. */
  lemma HeaderInNumbers(rest: seq<byte>, s: int)
    ensures W.FindHeader(rest) == s <==> FirstFit(rest, s)
  {
    hide W.HeaderAt, Fits;
    var r := W.FindHeader(rest);
    forall i: nat ensures W.HeaderAt(rest, i) <==> Fits(rest, i) { HeaderIsFit(rest, i); }
    if FirstFit(rest, s) && r != s {
      FitsWithin(rest, r);
      FitsWithin(rest, s);
    }
  }

  lemma FitsWithin(rest: seq<byte>, i: int)
    ensures i >= 0 && Fits(rest, i) ==> i < |rest|
  {}

  // ----- the lists -----

  /** Access point j takes the seven bytes from 7j on. */
  lemma {:induction false} NthAccessPoint(w: seq<byte>, j: nat)
    requires j < |w| / 7
    ensures |W.Wifis(w)| == |w| / 7
    ensures W.Wifis(w)[j] == W.WifiAP(w[7 * j..7 * j + 6], w[7 * j + 6])
    decreases |w|
  {
    W.WifiCount(w);
    if j > 0 {
      NthAccessPoint(w[7..], j - 1);
      assert w[7..][7 * (j - 1)..7 * (j - 1) + 6] == w[7 * j..7 * j + 6];
    }
  }

  /** What a cell of seven or of six bytes at offset o says. */
  predicate CellAt(c: W.CellTower, b: seq<byte>, o: nat, size: nat)
    requires (size == 6 || size == 7) && o + size <= |b|
  {
    && c.lac == Two(b[o], b[o + 1])
    && (size == 7 ==>
          && c.cellId == Four(b[o + 2], b[o + 3], b[o + 4], b[o + 5])
          && c.signal == b[o + 6])
    && (size == 6 ==>
          && c.cellId == Three(b[o + 2], b[o + 3], b[o + 4])
          && c.signal == b[o + 5])
  }

  lemma CellInNumbers(mcc: int, mnc: int, c: seq<byte>)
    requires |c| == 6 || |c| == 7
    ensures var t := W.Cell(mcc, mnc, c); t.mcc == mcc && t.mnc == mnc && CellAt(t, c, 0, |c|)
  {}

  lemma CellAtOffset(t: W.CellTower, b: seq<byte>, o: nat, size: nat)
    requires (size == 6 || size == 7) && o + size <= |b| && CellAt(t, b[o..o + size], 0, size)
    ensures CellAt(t, b, o, size)
  {}

  /** Where cell k starts, counted from the first. */
  function Offset(k: nat, size: nat): nat { if size == 6 then 6 * k else 7 * k }

  lemma {:induction false} NthCell(mcc: int, mnc: int, b: seq<byte>, o: nat, n: nat, size: nat, k: nat)
    requires (size == 6 || size == 7) && o + Offset(n, size) <= |b| && k < n
    ensures |W.Cells(mcc, mnc, b[o..], n, size)| == n && o + Offset(k, size) + size <= |b|
    ensures var t := W.Cells(mcc, mnc, b[o..], n, size)[k];
      t.mcc == mcc && t.mnc == mnc && CellAt(t, b, o + Offset(k, size), size)
    decreases n
  {
    assert n * size == Offset(n, size);
    W.CellCount(mcc, mnc, b[o..], n, size);
    W.CellStep(mcc, mnc, b, o, n, size);
    hide W.Cells, W.Cell, CellAt;
    if k == 0 {
      CellInNumbers(mcc, mnc, b[o..o + size]);
      CellAtOffset(W.Cell(mcc, mnc, b[o..o + size]), b, o, size);
    } else {
      NthCell(mcc, mnc, b, o + size, n - 1, size, k - 1);
      assert o + size + Offset(k - 1, size) == o + Offset(k, size);
    }
  }

  // ----- the parser -----

  /** n access points, seven bytes each from the start on. */
  predicate AccessPoints(aps: seq<W.WifiAP>, rest: seq<byte>, n: nat)
    requires 7 * n <= |rest|
  {
    |aps| == n && forall j :: 0 <= j < n ==> aps[j] == W.WifiAP(rest[7 * j..7 * j + 6], rest[7 * j + 6])
  }

  /** n cells of one operator, one behind the other from offset o on. */
  predicate CellList(cells: seq<W.CellTower>, mcc: int, mnc: int, b: seq<byte>, o: nat, n: nat, size: nat)
    requires size == 6 || size == 7
  {
    && |cells| == n
    && forall k :: 0 <= k < n ==>
         && o + Offset(k, size) + size <= |b| && cells[k].mcc == mcc && cells[k].mnc == mnc
         && CellAt(cells[k], b, o + Offset(k, size), size)
  }

  lemma AllCells(mcc: int, mnc: int, b: seq<byte>, o: nat, n: nat, size: nat)
    requires (size == 6 || size == 7) && o + Offset(n, size) <= |b|
    ensures CellList(W.Cells(mcc, mnc, b[o..], n, size), mcc, mnc, b, o, n, size)
  {
    assert n * size == Offset(n, size);
    W.CellCount(mcc, mnc, b[o..], n, size);
    hide W.Cells, CellAt, Offset;
    forall k | 0 <= k < n
      ensures var c := W.Cells(mcc, mnc, b[o..], n, size)[k];
        && o + Offset(k, size) + size <= |b| && c.mcc == mcc && c.mnc == mnc && CellAt(c, b, o + Offset(k, size), size)
    {
      NthCell(mcc, mnc, b, o, n, size, k);
    }
  }

  /** As many cells as the count at s says, at six bytes each if seven do not fit. */
  predicate CellsFrom(cells: seq<W.CellTower>, rest: seq<byte>, s: nat)
    requires Fits(rest, s)
  {
    CellList(cells, Two(rest[s + 1], rest[s + 2]), rest[s + 3], rest, s + 4, rest[s],
             if s + 4 + 7 * rest[s] <= |rest| then 7 else 6)
  }

  lemma AccessPointsParsed(rest: seq<byte>, w: seq<byte>)
    requires w <= rest
    ensures AccessPoints(W.Wifis(w), rest, |w| / 7)
  {
    W.WifiCount(w);
    forall j | 0 <= j < |w| / 7 ensures W.Wifis(w)[j] == W.WifiAP(rest[7 * j..7 * j + 6], rest[7 * j + 6]) {
      NthAccessPoint(w, j);
      assert w == rest[..|w|] && w[7 * j..7 * j + 6] == rest[7 * j..7 * j + 6];
    }
  }

  lemma CellPartInNumbers(rest: seq<byte>, s: nat, size: nat)
    requires Fits(rest, s) && size == if s + 4 + 7 * rest[s] <= |rest| then 7 else 6
    ensures W.CellPart(rest, s) == W.Cells(Two(rest[s + 1], rest[s + 2]), rest[s + 3], rest[s + 4..], rest[s], size)
    ensures s + 4 + Offset(rest[s], size) <= |rest|
  {
    hide W.Cells;
    assert rest[s..][4..] == rest[s + 4..];
  }

  lemma CellsParsed(rest: seq<byte>, s: nat)
    requires Fits(rest, s)
    ensures CellsFrom(W.CellPart(rest, s), rest, s)
  {
    var n := rest[s];
    var size := if s + 4 + 7 * n <= |rest| then 7 else 6;
    CellPartInNumbers(rest, s, size);
    hide W.CellPart, W.Cells, CellList;
    AllCells(Two(rest[s + 1], rest[s + 2]), rest[s + 3], rest, s + 4, n, size);
  }

  /** Every body, in numbers: below six bytes an error; otherwise the access points in front of the
      first position that fits and the cells behind it, or access points only. */
  lemma ParseInNumbers(body: seq<byte>, s: int)
    requires |body| >= 6 ==> FirstFit(body[6..], s)
    ensures |body| < 6 <==> W.Parse(body).TooShort?
    ensures |body| >= 6 ==>
      var rest, v := body[6..], W.Parse(body).value;
      && v.raw == body
      && AccessPoints(v.wifi, rest, if s == -1 then |rest| / 7 else s / 7)
      && (s == -1 ==> v.cells == [])
      && (s != -1 ==> CellsFrom(v.cells, rest, s))
  {
    hide AccessPoints, CellsFrom, W.Wifis, W.CellPart, W.ParseTime, W.FindHeader;
    if |body| >= 6 {
      var rest := body[6..];
      HeaderInNumbers(rest, s);
      if s == -1 {
        AccessPointsParsed(rest, rest);
      } else {
        AccessPointsParsed(rest, rest[..s]);
        CellsParsed(rest, s);
      }
    }
  }

  /** Where no byte from 1 to 6 is followed by a value from 1 to 999, all of the body is access points:
      a country code of 0 or of 1000 and more starts no cells. */
  lemma NoCountryCodeNoCells(body: seq<byte>)
    requires |body| >= 6 && forall i :: 0 <= i < |body| - 6 ==> !CountAndMcc(body[6..], i)
    ensures W.FindHeader(body[6..]) == -1
    ensures W.Parse(body).Parsed? && W.Parse(body).value.cells == []
    ensures AccessPoints(W.Parse(body).value.wifi, body[6..], (|body| - 6) / 7)
  {
    hide W.FindHeader, W.Parse;
    assert FirstFit(body[6..], -1);
    HeaderInNumbers(body[6..], -1);
    ParseInNumbers(body, -1);
  }

  // ----- the datetime -----

  /** Two decimal digits, or -1. */
  function TwoDigits(b: byte): int {
    if b <= 0x99 && b % 16 <= 9 then 10 * (b / 16) + b % 16 else -1
  }

  /** Years, months and days are checked on both sides, the time of day only above. */
  predicate DigitsInRange(b: seq<byte>)
    requires |b| >= 6
  {
    && 0 <= TwoDigits(b[0]) && 1 <= TwoDigits(b[1]) <= 12 && 1 <= TwoDigits(b[2]) <= 31
    && TwoDigits(b[3]) <= 23 && TwoDigits(b[4]) <= 59 && TwoDigits(b[5]) <= 59
  }

  lemma DigitsRead(b: byte)
    ensures W.BcdByte(b) == TwoDigits(b)
  {}

  /** Digits in range are read as digits; anything else as the six bytes themselves, in order. */
  lemma TimeInNumbers(b: seq<byte>)
    requires |b| >= 6
    ensures W.ParseTime(b) ==
      if DigitsInRange(b) then
        W.DateTime(2000 + TwoDigits(b[0]), TwoDigits(b[1]), TwoDigits(b[2]), TwoDigits(b[3]), TwoDigits(b[4]), TwoDigits(b[5]))
      else W.DateTime(2000 + (b[0] as int), b[1], b[2], b[3], b[4], b[5])
  {
    hide W.BcdByte, TwoDigits;
    DigitsRead(b[0]);
    DigitsRead(b[1]);
    DigitsRead(b[2]);
    DigitsRead(b[3]);
    DigitsRead(b[4]);
    DigitsRead(b[5]);
  }
}
