/** Round trips stated on byte values: reports with six-byte cells, and reports with seven-byte cells
    under a numeric condition (internal/protocol/wifilbs.go, internal/protocol/frame.go). */
module SixByteReports {
  import opened Bytes
  import opened Numbers
  import opened Framing
  import opened WifiFraming
  import opened WifiNumbers
  import opened WifiRoundTrip
  import W = WifiLbs

  // ----- seven-byte cells -----

  /** A report comes back from extraction and parsing, whatever follows, exactly when no byte from 1 to 6
      among its access points is followed by a value from 1 to 999. */
  lemma RoundTripInNumbers(h: Header, lens: seq<byte>, proto: byte, r: Report)
    requires |lens| == Prefix(h) - 3 && IsWifi(proto) && Valid(r)
    ensures (forall tail :: RoundTrips(h, lens, proto, r, tail)) <==>
      forall i :: 0 <= i < 7 * |r.wifi| ==> !CountAndMcc(EncodeRest(r), i)
  {
    hide RoundTrips, EncodeRest;
    RoundTripIff(h, lens, proto, r);
    forall i | 0 <= i < 7 * |r.wifi|
      ensures W.Plausible(EncodeRest(r), i) <==> CountAndMcc(EncodeRest(r), i)
    {}
  }

  // ----- six-byte cells -----

  /** Cell identities of three bytes. */
  predicate Narrow(r: Report) {
    Valid(r) && forall i :: 0 <= i < |r.cells| ==> r.cells[i].cellId < 0x100_0000
  }

  predicate NarrowCell(c: W.CellTower) {
    0 <= c.lac < 0x1_0000 && 0 <= c.cellId < 0x100_0000 && 0 <= c.signal < 256
  }

  /** Area code in two bytes, identity in three, signal in one. */
  function NarrowBytes(c: W.CellTower): (s: seq<byte>)
    requires NarrowCell(c)
    ensures |s| == 6
  {
    [c.lac / 256, c.lac % 256, c.cellId / 65_536, c.cellId / 256 % 256, c.cellId % 256, c.signal]
  }

  function AllNarrowBytes(cells: seq<W.CellTower>): (s: seq<byte>)
    requires forall i :: 0 <= i < |cells| ==> NarrowCell(cells[i])
    ensures |s| == 6 * |cells|
  {
    if cells == [] then [] else NarrowBytes(cells[0]) + AllNarrowBytes(cells[1..])
  }

  function NarrowRest(r: Report): (s: seq<byte>)
    requires Narrow(r)
    ensures |s| == 7 * |r.wifi| + 4 + 6 * |r.cells|
  {
    EncodeAps(r.wifi) + [|r.cells|, r.mcc / 256, r.mcc % 256, r.mnc] + AllNarrowBytes(r.cells)
  }

  function NarrowBody(r: Report): (s: seq<byte>)
    requires Narrow(r)
    ensures |s| == 6 + |NarrowRest(r)| && s[6..] == NarrowRest(r)
  {
    EncodeTime(r.time) + NarrowRest(r)
  }

  lemma NarrowCellBack(mcc: int, mnc: int, c: W.CellTower)
    requires NarrowCell(c) && c.mcc == mcc && c.mnc == mnc
    ensures W.Cell(mcc, mnc, NarrowBytes(c)) == c
  {
    var s, t := NarrowBytes(c), W.Cell(mcc, mnc, NarrowBytes(c));
    CellInNumbers(mcc, mnc, s);
    hide W.Cell;
    ThreeBack(c.cellId);
    assert t.lac == 256 * (c.lac / 256) + c.lac % 256;
  }

  lemma ThreeBack(v: nat)
    ensures Three(v / 65_536, v / 256 % 256, v % 256) == v
  {
    assert v / 256 / 256 == v / 65_536;
    assert v / 256 == 256 * (v / 65_536) + v / 256 % 256;
    assert v == 256 * (v / 256) + v % 256;
  }

  lemma ConsNarrow(mcc: int, mnc: int, a: seq<byte>, b: seq<byte>, n: nat)
    requires |a| == 6 && n > 0
    ensures W.Cells(mcc, mnc, a + b, n, 6) == [W.Cell(mcc, mnc, a)] + W.Cells(mcc, mnc, b, n - 1, 6)
  {
    hide W.Cell;
    TakeDrop(a, b);
  }

  lemma {:induction false} NarrowCellsBack(mcc: int, mnc: int, cells: seq<W.CellTower>)
    requires forall i :: 0 <= i < |cells| ==> NarrowCell(cells[i]) && cells[i].mcc == mcc && cells[i].mnc == mnc
    ensures W.Cells(mcc, mnc, AllNarrowBytes(cells), |cells|, 6) == cells
    decreases |cells|
  {
    if cells != [] {
      hide W.Cell, W.Cells, NarrowBytes;
      NarrowCellBack(mcc, mnc, cells[0]);
      NarrowCellsBack(mcc, mnc, cells[1..]);
      ConsNarrow(mcc, mnc, NarrowBytes(cells[0]), AllNarrowBytes(cells[1..]), |cells|);
    } else {
      W.NoMoreCells(mcc, mnc, [], 0, 6);
    }
  }

  lemma NarrowLayout(r: Report)
    requires Narrow(r)
    ensures var rest, s := NarrowRest(r), 7 * |r.wifi|;
      && rest[..s] == EncodeAps(r.wifi)
      && rest[s] == |r.cells| && Two(rest[s + 1], rest[s + 2]) == r.mcc && rest[s + 3] == r.mnc
      && rest[s + 4..] == AllNarrowBytes(r.cells)
      && Fits(rest, s)
  {
    hide EncodeAps, AllNarrowBytes, EncodeTime;
  }

  /** With no earlier position that fits, the body is parsed back exactly. */
  lemma NarrowParseBack(r: Report)
    requires Narrow(r) && forall i :: 0 <= i < 7 * |r.wifi| ==> !Fits(NarrowRest(r), i)
    ensures W.Parse(NarrowBody(r)) == W.Parsed(W.WifiLBS(r.time, r.wifi, r.cells, NarrowBody(r)))
  {
    var body, rest, s := NarrowBody(r), NarrowRest(r), 7 * |r.wifi|;
    NarrowLayout(r);
    HeaderInNumbers(rest, s);
    TimeBack(r.time, rest);
    ApsBack(r.wifi);
    NarrowCellsBack(r.mcc, r.mnc, r.cells);
    CellPartInNumbers(rest, s, 6);
    hide W.ParseTime, W.Wifis, W.Cells, W.CellPart, W.FindHeader, NarrowRest, AllNarrowBytes, EncodeAps;
  }

  lemma NarrowIsSixByte(r: Report)
    requires Narrow(r) && forall i :: 0 <= i < 7 * |r.wifi| ==> !CountAndMcc(NarrowRest(r), i)
    ensures FirstPlausible(NarrowRest(r)) == 7 * |r.wifi| && SixByteCells(NarrowBody(r))
    ensures NarrowBody(r)[6 + 7 * |r.wifi|] == |r.cells|
  {
    var rest, s := NarrowRest(r), 7 * |r.wifi|;
    NarrowLayout(r);
    hide NarrowRest;
    assert W.Plausible(rest, s);
    forall i | 0 <= i < s ensures !W.Plausible(rest, i) { assert !CountAndMcc(rest, i); }
    assert NarrowBody(r)[6..][s] == rest[s];
  }

  /** End to end: with no earlier count and country code, the values come back from parsing, and the frame
      from extraction exactly when fewer than count - 2 bytes follow it. */
  lemma NarrowRoundTrip(h: Header, lens: seq<byte>, proto: byte, r: Report, tail: seq<byte>)
    requires |lens| == Prefix(h) - 3 && IsWifi(proto)
    requires Narrow(r) && forall i :: 0 <= i < 7 * |r.wifi| ==> !CountAndMcc(NarrowRest(r), i)
    ensures W.Parse(NarrowBody(r)) == W.Parsed(W.WifiLBS(r.time, r.wifi, r.cells, NarrowBody(r)))
    ensures Framed(h, lens, proto, NarrowBody(r), tail) <==> |tail| + 2 < |r.cells|
  {
    hide Framed, W.Parse, NarrowRest, NarrowBody;
    NarrowParseBack(r);
    NarrowIsSixByte(r);
    SixByteCellsFramedIff(h, lens, proto, NarrowBody(r), tail);
  }
}
