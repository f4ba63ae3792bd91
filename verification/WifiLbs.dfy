/** The Wi-Fi/LBS body: header search and parser (internal/protocol/wifilbs.go). */
module WifiLbs {
  import opened Bytes

  datatype WifiAP = WifiAP(mac: seq<byte>, rssi: byte)
  datatype CellTower = CellTower(mcc: int, mnc: int, lac: int, cellId: int, signal: int)
  /** The six arguments given to time.Date, before it normalises them. */
  datatype DateTime = DateTime(year: int, month: int, day: int, hour: int, minute: int, second: int)
  datatype WifiLBS = WifiLBS(time: DateTime, wifi: seq<WifiAP>, cells: seq<CellTower>, raw: seq<byte>)
  datatype ParseResult = TooShort | Parsed(value: WifiLBS)

  // ----- header search -----

  /** The three bytes at i look like a cell count of 1 to 6 and an MCC of 1 to 999. */
  predicate Plausible(rest: seq<byte>, i: nat) {
    i + 3 <= |rest| && 1 <= rest[i] <= 6 && 1 <= BE16(rest[i + 1], rest[i + 2]) <= 999
  }

  /** A plausible header that also leaves room for its cells at six bytes each. */
  predicate HeaderAt(rest: seq<byte>, i: nat) {
    i + 4 <= |rest| && Plausible(rest, i) && rest[i] * 6 <= |rest| - (i + 4)
  }

  /** The first header at or after `from`, or -1. */
  function HeaderFrom(rest: seq<byte>, from: nat): (r: int)
    ensures r == -1 || from <= r <= |rest| - 4
    ensures r != -1 ==> HeaderAt(rest, r)
    ensures forall i :: from <= i && (r == -1 || i < r) ==> !HeaderAt(rest, i)
    decreases |rest| - from
  {
    if from + 4 > |rest| then -1
    else if HeaderAt(rest, from) then from
    else HeaderFrom(rest, from + 1)
  }

  function FindHeader(rest: seq<byte>): (r: int)
    ensures r == -1 || 0 <= r <= |rest| - 4
    ensures r != -1 ==> HeaderAt(rest, r)
    ensures forall i :: 0 <= i && (r == -1 || i < r) ==> !HeaderAt(rest, i)
  {
    HeaderFrom(rest, 0)
  }

  method FindLBSHeader(rest: seq<byte>) returns (r: int)
    ensures r == FindHeader(rest)
  {
    var i := 0;
    while i + 4 <= |rest|
      invariant 0 <= i
      invariant forall j :: 0 <= j < i ==> !HeaderAt(rest, j)
    {
      var count := rest[i];
      if count < 1 || count > 6 {
        i := i + 1;
        continue;
      }
      var mcc := BE16(rest[i + 1], rest[i + 2]);
      if mcc == 0 || mcc > 999 {
        i := i + 1;
        continue;
      }
      var remain := |rest| - (i + 4);
      if remain >= count * 6 {
        HeaderIs(rest, i);
        return i;
      }
      i := i + 1;
    }
    r := -1;
  }

  lemma HeaderIs(rest: seq<byte>, s: nat)
    requires HeaderAt(rest, s) && forall i :: 0 <= i < s ==> !HeaderAt(rest, i)
    ensures FindHeader(rest) == s
  {}

  /** Seven bytes a cell, or six when only six fit. */
  function CellSize(count: int, remain: int): int {
    if count > 0 && count * 7 > remain && count * 6 <= remain then 6 else 7
  }

  // ----- datetime -----

  function BcdByte(b: byte): int {
    if b / 16 > 9 || b % 16 > 9 then -1 else b / 16 * 10 + b % 16
  }

  /** The range test of the source; note that it has no lower bound on the time of day. */
  predicate LooksInvalid(d: DateTime) {
    d.year < 2000 || d.month < 1 || d.month > 12 || d.day < 1 || d.day > 31
    || d.hour > 23 || d.minute > 59 || d.second > 59
  }

  function ParseTime(b: seq<byte>): DateTime
    requires |b| >= 6
  {
    var d := DateTime(2000 + BcdByte(b[0]), BcdByte(b[1]), BcdByte(b[2]), BcdByte(b[3]), BcdByte(b[4]), BcdByte(b[5]));
    if LooksInvalid(d) then DateTime(2000 + (b[0] as int), b[1], b[2], b[3], b[4], b[5]) else d
  }

  // ----- the parser -----

  /** Groups of seven bytes; a shorter tail is dropped. */
  function Wifis(w: seq<byte>): seq<WifiAP> {
    if |w| < 7 then [] else [WifiAP(w[..6], w[6])] + Wifis(w[7..])
  }

  function Cell(mcc: int, mnc: int, c: seq<byte>): CellTower
    requires |c| == 6 || |c| == 7
  {
    if |c| == 7 then CellTower(mcc, mnc, BE16(c[0], c[1]), BE32(c[2], c[3], c[4], c[5]), c[6])
    else CellTower(mcc, mnc, BE16(c[0], c[1]), BE32(0, c[2], c[3], c[4]), c[5])
  }

  /** Up to n cells of the given size, as many as the bytes hold. */
  function Cells(mcc: int, mnc: int, b: seq<byte>, n: int, size: int): seq<CellTower>
    requires size == 6 || size == 7
    decreases n
  {
    if n <= 0 || |b| < size then []
    else [Cell(mcc, mnc, b[..size])] + Cells(mcc, mnc, b[size..], n - 1, size)
  }

  /** What the parser reads off the part after the datetime, given the header position. */
  function WifiPart(rest: seq<byte>, s: int): seq<WifiAP>
    requires -1 <= s <= |rest|
  {
    Wifis(if s < 0 then rest else rest[..s])
  }

  function CellPart(rest: seq<byte>, s: int): seq<CellTower>
    requires -1 <= s <= |rest| - 4
  {
    if s < 0 then [] else
      var lbs := rest[s..];
      Cells(BE16(lbs[1], lbs[2]), lbs[3], lbs[4..], lbs[0], CellSize(lbs[0], |lbs| - 4))
  }

  function Parse(body: seq<byte>): ParseResult {
    if |body| < 6 then TooShort else
      var rest := body[6..];
      var s := FindHeader(rest);
      Parsed(WifiLBS(ParseTime(body), WifiPart(rest, s), if s == -1 then [] else CellPart(rest, s), body))
  }

  lemma {:induction false} WifiCount(w: seq<byte>)
    ensures |Wifis(w)| == |w| / 7
    decreases |w|
  {
    if |w| >= 7 { WifiCount(w[7..]); }
  }

  lemma {:induction false} CellCount(mcc: int, mnc: int, b: seq<byte>, n: nat, size: int)
    requires size == 6 || size == 7
    requires n * size <= |b|
    ensures |Cells(mcc, mnc, b, n, size)| == n
    decreases n
  {
    if n > 0 { CellCount(mcc, mnc, b[size..], n - 1, size); }
  }

  lemma WifiStep(w: seq<byte>, i: nat)
    requires i + 7 <= |w|
    ensures Wifis(w[i..]) == [WifiAP(w[i..i + 6], w[i + 6])] + Wifis(w[i + 7..])
  {
    assert w[i..][..6] == w[i..i + 6] && w[i..][7..] == w[i + 7..];
  }

  lemma CellStep(mcc: int, mnc: int, b: seq<byte>, pos: nat, n: int, size: int)
    requires (size == 6 || size == 7) && n > 0 && pos + size <= |b|
    ensures Cells(mcc, mnc, b[pos..], n, size) ==
            [Cell(mcc, mnc, b[pos..pos + size])] + Cells(mcc, mnc, b[pos + size..], n - 1, size)
  {}

  lemma NoMoreCells(mcc: int, mnc: int, b: seq<byte>, n: int, size: int)
    requires (size == 6 || size == 7) && (n <= 0 || |b| < size)
    ensures Cells(mcc, mnc, b, n, size) == []
  {}

  method ParseWifiLBS(body: seq<byte>) returns (r: ParseResult)
    ensures r == Parse(body)
  {
    if |body| < 6 {
      return TooShort;
    }
    var yy, mm, dd := BcdByte(body[0]), BcdByte(body[1]), BcdByte(body[2]);
    var hh, mi, ss := BcdByte(body[3]), BcdByte(body[4]), BcdByte(body[5]);
    if yy < 0 || mm < 1 || mm > 12 || dd < 1 || dd > 31 || hh > 23 || mi > 59 || ss > 59 {
      yy, mm, dd := body[0], body[1], body[2];
      hh, mi, ss := body[3], body[4], body[5];
    }
    var time := DateTime(2000 + yy, mm, dd, hh, mi, ss);
    assert time == ParseTime(body);

    var rest := body[6..];
    var lbsStart := FindLBSHeader(rest);
    var wifiBytes, lbsBytes := rest, [];
    if lbsStart >= 0 {
      wifiBytes, lbsBytes := rest[..lbsStart], rest[lbsStart..];
    }

    var wifi := ParseWifis(wifiBytes);
    var cells: seq<CellTower> := [];
    if |lbsBytes| >= 4 {
      cells := ParseCells(lbsBytes);
    }
    r := Parsed(WifiLBS(time, wifi, cells, body));
  }

  /** The access point loop of ParseWifiLBS. */
  method ParseWifis(wifiBytes: seq<byte>) returns (wifi: seq<WifiAP>)
    ensures wifi == Wifis(wifiBytes)
  {
    wifi := [];
    var i := 0;
    while i + 7 <= |wifiBytes|
      invariant 0 <= i <= |wifiBytes|
      invariant Wifis(wifiBytes) == wifi + Wifis(wifiBytes[i..])
    {
      WifiStep(wifiBytes, i);
      wifi := wifi + [WifiAP(wifiBytes[i..i + 6], wifiBytes[i + 6])];
      i := i + 7;
    }
  }

  /** The body of the cell loop. */
  method ReadCell(mcc: int, mnc: int, lbs: seq<byte>, pos: nat, cellSize: int) returns (cell: CellTower)
    requires (cellSize == 6 || cellSize == 7) && pos + cellSize <= |lbs|
    ensures cell == Cell(mcc, mnc, lbs[pos..pos + cellSize])
  {
    hide BE16, BE32;
    var lac := BE16(lbs[pos], lbs[pos + 1]);
    var ci, sig;
    if cellSize == 7 {
      ci := BE32(lbs[pos + 2], lbs[pos + 3], lbs[pos + 4], lbs[pos + 5]);
      sig := lbs[pos + 6];
    } else {
      ci := BE32(0, lbs[pos + 2], lbs[pos + 3], lbs[pos + 4]);
      sig := lbs[pos + 5];
    }
    cell := CellTower(mcc, mnc, lac, ci, sig);
  }

  /** The cell block of ParseWifiLBS. */
  method ParseCells(lbs: seq<byte>) returns (cells: seq<CellTower>)
    requires |lbs| >= 4
    ensures cells == Cells(BE16(lbs[1], lbs[2]), lbs[3], lbs[4..], lbs[0], CellSize(lbs[0], |lbs| - 4))
  {
    hide BE16, Cells;
    var count := lbs[0];
    var mcc := BE16(lbs[1], lbs[2]);
    var mnc := lbs[3];
    var cellSize := 7;
    if count > 0 && 4 + count * 7 > |lbs| && 4 + count * 6 <= |lbs| {
      cellSize := 6;
    }
    cells := ReadCells(mcc, mnc, lbs, 4, count, cellSize);
  }

  /** Its loop, from position start on. */
  method ReadCells(mcc: int, mnc: int, lbs: seq<byte>, start: nat, count: nat, cellSize: int) returns (cells: seq<CellTower>)
    requires (cellSize == 6 || cellSize == 7) && start <= |lbs|
    ensures cells == Cells(mcc, mnc, lbs[start..], count, cellSize)
  {
    hide Cell, Cells;
    var pos, i := start, 0;
    cells := [];
    while i < count && pos + cellSize <= |lbs|
      invariant 0 <= i <= count && start <= pos <= |lbs|
      invariant Cells(mcc, mnc, lbs[start..], count, cellSize) == cells + Cells(mcc, mnc, lbs[pos..], count - i, cellSize)
      decreases count - i
    {
      var cell := ReadCell(mcc, mnc, lbs, pos, cellSize);
      CellStep(mcc, mnc, lbs, pos, count - i, cellSize);
      cells := cells + [cell];
      pos := pos + cellSize;
      i := i + 1;
    }
    NoMoreCells(mcc, mnc, lbs[pos..], count - i, cellSize);
  }
}
