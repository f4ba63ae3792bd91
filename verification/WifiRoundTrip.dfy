/** From the values of a Wi-Fi/LBS report to the wire and back. */
module WifiRoundTrip {
  import opened Bytes
  import opened Framing
  import opened WifiFraming
  import W = WifiLbs

  /** A report as a device means it: one operator, up to six cells of seven bytes. */
  datatype Report = Report(time: W.DateTime, wifi: seq<W.WifiAP>, mcc: int, mnc: byte, cells: seq<W.CellTower>)

  predicate ValidTime(t: W.DateTime) {
    2000 <= t.year <= 2099 && 1 <= t.month <= 12 && 1 <= t.day <= 31
    && 0 <= t.hour <= 23 && 0 <= t.minute <= 59 && 0 <= t.second <= 59
  }

  predicate ValidCell(r: Report, c: W.CellTower) {
    c.mcc == r.mcc && c.mnc == r.mnc && 0 <= c.lac < 0x1_0000
    && 0 <= c.cellId < 0x1_0000_0000 && 0 <= c.signal < 256
  }

  predicate Valid(r: Report) {
    && ValidTime(r.time) && 1 <= r.mcc <= 999 && 1 <= |r.cells| <= 6
    && (forall i :: 0 <= i < |r.wifi| ==> |r.wifi[i].mac| == 6)
    && (forall i :: 0 <= i < |r.cells| ==> ValidCell(r, r.cells[i]))
  }

  function Bcd(v: int): byte
    requires 0 <= v <= 99
  {
    v / 10 * 16 + v % 10
  }

  function EncodeTime(t: W.DateTime): (s: seq<byte>)
    requires ValidTime(t)
    ensures |s| == 6
  {
    [Bcd(t.year - 2000), Bcd(t.month), Bcd(t.day), Bcd(t.hour), Bcd(t.minute), Bcd(t.second)]
  }

  function EncodeAps(aps: seq<W.WifiAP>): (s: seq<byte>)
    requires forall i :: 0 <= i < |aps| ==> |aps[i].mac| == 6
    ensures |s| == 7 * |aps|
  {
    if aps == [] then [] else aps[0].mac + [aps[0].rssi] + EncodeAps(aps[1..])
  }

  function EncodeCell(r: Report, c: W.CellTower): (s: seq<byte>)
    requires ValidCell(r, c)
    ensures |s| == 7
  {
    PutBE16(c.lac) + PutBE32(c.cellId) + [c.signal]
  }

  function EncodeCells(r: Report, cells: seq<W.CellTower>): (s: seq<byte>)
    requires forall i :: 0 <= i < |cells| ==> ValidCell(r, cells[i])
    ensures |s| == 7 * |cells|
  {
    if cells == [] then [] else EncodeCell(r, cells[0]) + EncodeCells(r, cells[1..])
  }

  /** Everything after the datetime. */
  function EncodeRest(r: Report): seq<byte>
    requires Valid(r)
  {
    EncodeAps(r.wifi) + [|r.cells|] + PutBE16(r.mcc) + [r.mnc] + EncodeCells(r, r.cells)
  }

  function EncodeBody(r: Report): (s: seq<byte>)
    requires Valid(r)
    ensures |s| == 6 + |EncodeRest(r)| && s[6..] == EncodeRest(r)
  {
    EncodeTime(r.time) + EncodeRest(r)
  }

  // ----- datetime -----

  lemma BcdBack(v: int)
    requires 0 <= v <= 99
    ensures W.BcdByte(Bcd(v)) == v
  {}

  lemma SameSix(e: seq<byte>, more: seq<byte>)
    requires |e| == 6
    ensures var b := e + more;
      b[0] == e[0] && b[1] == e[1] && b[2] == e[2] && b[3] == e[3] && b[4] == e[4] && b[5] == e[5]
  {}

  lemma TimeOf(b: seq<byte>, t: W.DateTime)
    requires |b| >= 6 && ValidTime(t)
    requires W.BcdByte(b[0]) == t.year - 2000 && W.BcdByte(b[1]) == t.month && W.BcdByte(b[2]) == t.day
    requires W.BcdByte(b[3]) == t.hour && W.BcdByte(b[4]) == t.minute && W.BcdByte(b[5]) == t.second
    ensures W.ParseTime(b) == t
  {
    hide W.BcdByte;
  }

  lemma TimeBack(t: W.DateTime, more: seq<byte>)
    requires ValidTime(t)
    ensures W.ParseTime(EncodeTime(t) + more) == t
  {
    hide Bcd, W.BcdByte, W.ParseTime;
    BcdBack(t.year - 2000);
    BcdBack(t.month);
    BcdBack(t.day);
    BcdBack(t.hour);
    BcdBack(t.minute);
    BcdBack(t.second);
    SameSix(EncodeTime(t), more);
    TimeOf(EncodeTime(t) + more, t);
  }

  predicate ClockByte(b: byte, max: int) { W.BcdByte(b) <= max }

  /** The range test lets a clock byte that is not BCD through as -1: the parsed clock is negative
      exactly when the date bytes are a BCD date, no clock byte decodes beyond its maximum, and
      one of the clock bytes is not BCD. */
  lemma NegativeClockIff(b: seq<byte>)
    requires |b| >= 6
    ensures var t := W.ParseTime(b);
      t.hour < 0 || t.minute < 0 || t.second < 0 <==>
        && W.BcdByte(b[0]) >= 0 && 1 <= W.BcdByte(b[1]) <= 12 && 1 <= W.BcdByte(b[2]) <= 31
        && ClockByte(b[3], 23) && ClockByte(b[4], 59) && ClockByte(b[5], 59)
        && (W.BcdByte(b[3]) == -1 || W.BcdByte(b[4]) == -1 || W.BcdByte(b[5]) == -1)
  {}

  // ----- the two lists -----

  lemma {:induction false} ApsBack(aps: seq<W.WifiAP>)
    requires forall i :: 0 <= i < |aps| ==> |aps[i].mac| == 6
    ensures W.Wifis(EncodeAps(aps)) == aps
  {
    if aps != [] {
      ApsBack(aps[1..]);
      var s := EncodeAps(aps);
      assert s[..6] == aps[0].mac && s[6] == aps[0].rssi && s[7..] == EncodeAps(aps[1..]);
    }
  }

  lemma CellBack(r: Report, c: W.CellTower)
    requires ValidCell(r, c)
    ensures W.Cell(r.mcc, r.mnc, EncodeCell(r, c)) == c
  {}

  lemma TakeDrop(a: seq<byte>, b: seq<byte>)
    ensures (a + b)[..|a|] == a && (a + b)[|a|..] == b
  {}

  lemma ConsCell(mcc: int, mnc: int, a: seq<byte>, b: seq<byte>, n: nat)
    requires |a| == 7 && n > 0
    ensures W.Cells(mcc, mnc, a + b, n, 7) == [W.Cell(mcc, mnc, a)] + W.Cells(mcc, mnc, b, n - 1, 7)
  {
    hide W.Cell;
    TakeDrop(a, b);
  }

  lemma {:induction false} CellsBack(r: Report, cells: seq<W.CellTower>)
    requires forall i :: 0 <= i < |cells| ==> ValidCell(r, cells[i])
    ensures W.Cells(r.mcc, r.mnc, EncodeCells(r, cells), |cells|, 7) == cells
    decreases |cells|
  {
    if cells != [] {
      hide W.Cell, W.Cells, EncodeCell;
      CellBack(r, cells[0]);
      CellsBack(r, cells[1..]);
      ConsCell(r.mcc, r.mnc, EncodeCell(r, cells[0]), EncodeCells(r, cells[1..]), |cells|);
    } else {
      W.NoMoreCells(r.mcc, r.mnc, [], 0, 7);
    }
  }

  // ----- the round trip -----

  /** No position inside the access points looks like a count followed by an MCC. */
  predicate NoFakeHeader(r: Report)
    requires Valid(r)
  {
    forall i :: 0 <= i < 7 * |r.wifi| ==> !W.Plausible(EncodeRest(r), i)
  }

  /** Where the pieces of the encoding lie. */
  lemma RestLayout(r: Report)
    requires Valid(r)
    ensures var rest, s := EncodeRest(r), 7 * |r.wifi|;
      && |rest| == s + 4 + 7 * |r.cells|
      && rest[..s] == EncodeAps(r.wifi)
      && rest[s] == |r.cells| && BE16(rest[s + 1], rest[s + 2]) == r.mcc && rest[s + 3] == r.mnc
      && rest[s + 4..] == EncodeCells(r, r.cells)
      && W.HeaderAt(rest, s)
  {}

  lemma TrueHeaderFirst(r: Report)
    requires Valid(r) && NoFakeHeader(r)
    ensures FirstPlausible(EncodeRest(r)) == 7 * |r.wifi|
    ensures W.FindHeader(EncodeRest(r)) == 7 * |r.wifi|
  {
    RestLayout(r);
    W.HeaderIs(EncodeRest(r), 7 * |r.wifi|);
  }

  lemma ParseBack(r: Report)
    requires Valid(r) && NoFakeHeader(r)
    ensures W.Parse(EncodeBody(r)) == W.Parsed(W.WifiLBS(r.time, r.wifi, r.cells, EncodeBody(r)))
  {
    var rest, s := EncodeRest(r), 7 * |r.wifi|;
    TrueHeaderFirst(r);
    RestLayout(r);
    TimeBack(r.time, rest);
    ApsBack(r.wifi);
    CellsBack(r, r.cells);
    assert rest[s..][4..] == rest[s + 4..];
  }

  lemma EncodedBodyImmune(r: Report)
    requires Valid(r) && NoFakeHeader(r)
    ensures Immune(EncodeBody(r))
  {
    TrueHeaderFirst(r);
    RestLayout(r);
  }

  /** The frame and then its values come back from a buffer that starts with the encoding. */
  predicate RoundTrips(h: Header, lens: seq<byte>, proto: byte, r: Report, tail: seq<byte>)
    requires |lens| == Prefix(h) - 3 && Valid(r)
  {
    && Framed(h, lens, proto, EncodeBody(r), tail)
    && W.Parse(EncodeBody(r)) == W.Parsed(W.WifiLBS(r.time, r.wifi, r.cells, EncodeBody(r)))
  }

  /** A fake header that is found leaves too few access points before it. */
  lemma FakeHeaderLosesAps(r: Report)
    requires Valid(r) && !NoFakeHeader(r) && Immune(EncodeBody(r))
    ensures W.Parse(EncodeBody(r)).value.wifi != r.wifi
  {
    var rest := EncodeRest(r);
    var p := FirstPlausible(rest);
    HeaderFoundWithRoom(rest, []);
    assert rest + [] == rest;
    W.WifiCount(rest[..p]);
  }

  /** Extraction followed by parsing returns exactly the encoded values, whatever bytes follow the
      frame and whatever trailer pairs its fields contain, if and only if no earlier position
      looks like a header. */
  lemma RoundTripIff(h: Header, lens: seq<byte>, proto: byte, r: Report)
    requires |lens| == Prefix(h) - 3 && IsWifi(proto) && Valid(r)
    ensures (forall tail :: RoundTrips(h, lens, proto, r, tail)) <==> NoFakeHeader(r)
  {
    FramedWhateverFollowsIffImmune(h, lens, proto, EncodeBody(r));
    if NoFakeHeader(r) {
      EncodedBodyImmune(r);
      ParseBack(r);
    } else if Immune(EncodeBody(r)) {
      FakeHeaderLosesAps(r);
      assert !RoundTrips(h, lens, proto, r, []);
    } else {
      var tail := NotImmuneTail(h, lens, proto, EncodeBody(r));
      assert !RoundTrips(h, lens, proto, r, tail);
    }
  }
}
