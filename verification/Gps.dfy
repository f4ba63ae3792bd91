/** GPS and status bodies (internal/protocol/gps.go, internal/protocol/status.go). */
module Gps {
  import opened Bytes
  import opened Numbers
  import W = WifiLbs

  /** Coordinates are exact fractions of a degree. */
  datatype Position = Position(
    time: W.DateTime, latitude: real, longitude: real, speedKmh: int, course: int,
    satellites: int, valid: bool, courseStatus: int)

  datatype ParsedGps = GpsError | Fix(position: Position)

  function Degrees(raw: int): real { raw as real / 1_800_000.0 }

  function ParseGPS(body: seq<byte>): ParsedGps {
    if |body| < 18 then GpsError else
      var lat := Degrees(BE32(body[7], body[8], body[9], body[10]));
      var lon := Degrees(BE32(body[11], body[12], body[13], body[14]));
      var status := BE16(body[16], body[17]);
      Fix(Position(
        W.DateTime(2000 + (body[0] as int), body[1], body[2], body[3], body[4], body[5]),
        lat, lon, body[15], status % 0x400, body[6] % 16,
        status / 0x10 % 2 == 1 || status / 0x800 % 2 == 1 || (lat != 0.0 && lon != 0.0), status))
  }

  predicate Even(n: int) { n % 2 == 0 }

  /** A fix in bytes: the satellites are the low nibble of byte 6, the course the low ten bits of the
      last two bytes; it is valid if bit 4 or bit 11 of those is set or neither coordinate is zero. */
  predicate FixReads(p: Position, b: seq<byte>)
    requires |b| >= 18
  {
    var lat, lon := Four(b[7], b[8], b[9], b[10]), Four(b[11], b[12], b[13], b[14]);
    && p.time == W.DateTime(2000 + (b[0] as int), b[1], b[2], b[3], b[4], b[5])
    && p.latitude == lat as real / 1_800_000.0 && p.longitude == lon as real / 1_800_000.0
    && p.speedKmh == b[15] && p.satellites == b[6] - 16 * (b[6] / 16)
    && p.course == Two(b[16] % 4, b[17]) && p.courseStatus == Two(b[16], b[17])
    && (p.valid <==> !Even(b[17] / 16) || !Even(b[16] / 8) || (lat != 0 && lon != 0))
  }

  /** Every body of eighteen bytes or more is read like that, every other is an error. */
  lemma FixInNumbers(b: seq<byte>)
    ensures match ParseGPS(b)
      case GpsError => |b| < 18
      case Fix(p) => |b| >= 18 && FixReads(p, b)
  {
    if |b| >= 18 {
      LowTen(b[16], b[17]);
      BitFour(b[16], b[17]);
      BitEleven(b[16], b[17]);
      NoCoordinate(Four(b[7], b[8], b[9], b[10]));
      NoCoordinate(Four(b[11], b[12], b[13], b[14]));
      FourIsBE32(b[7], b[8], b[9], b[10]);
      FourIsBE32(b[11], b[12], b[13], b[14]);
      TwoIsBE16(b[16], b[17]);
      hide BE32, BE16, Two, Four, Even;
    }
  }

  lemma TwoIsBE16(a: byte, b: byte)
    ensures BE16(a, b) == Two(a, b)
  {}

  lemma FourIsBE32(a: byte, b: byte, c: byte, d: byte)
    ensures BE32(a, b, c, d) == Four(a, b, c, d)
  {}

  lemma NoCoordinate(v: int)
    ensures v as real / 1_800_000.0 == 0.0 <==> v == 0
  {}

  lemma Over1024(q: int, r: int)
    requires 0 <= r < 1024
    ensures (1024 * q + r) % 1024 == r
  {}

  lemma Over16(q: int, r: int)
    requires 0 <= r < 16
    ensures (16 * q + r) / 16 == q
  {}

  lemma Over2048(q: int, r: int)
    requires 0 <= r < 2048
    ensures (2048 * q + r) / 2048 == q
  {}

  /** The two parts of a byte. */
  lemma Parts(b: byte, q: int, r: int, d: int)
    requires (d == 4 || d == 8 || d == 16) && q == b / d && r == b % d
    ensures 0 <= r < d && b == (if d == 4 then 4 * q else if d == 8 then 8 * q else 16 * q) + r
  {}

  lemma LowTen(hi: byte, lo: byte)
    ensures Two(hi, lo) % 0x400 == Two(hi % 4, lo)
  {
    var q, r := hi / 4, hi % 4;
    Parts(hi, q, r, 4);
    assert Two(hi, lo) == 1024 * q + Two(r, lo);
    Over1024(q, Two(r, lo));
  }

  lemma BitFour(hi: byte, lo: byte)
    ensures Two(hi, lo) / 0x10 % 2 == 1 <==> !Even(lo / 16)
  {
    var q, r := lo / 16, lo % 16;
    Parts(lo, q, r, 16);
    assert Two(hi, lo) == 16 * (16 * hi + q) + r;
    Over16(16 * hi + q, r);
    TwiceMore(8 * hi, q);
  }

  lemma TwiceMore(n: int, q: int)
    ensures (2 * n + q) % 2 == q % 2
  {}

  lemma BitEleven(hi: byte, lo: byte)
    ensures Two(hi, lo) / 0x800 % 2 == 1 <==> !Even(hi / 8)
  {
    var q, r := hi / 8, hi % 8;
    Parts(hi, q, r, 8);
    assert Two(hi, lo) == 2048 * q + Two(r, lo);
    Over2048(q, Two(r, lo));
  }

  /** batteryPercent is -1 when the byte is not a percentage. */
  datatype Status = Status(batteryPercent: int, softwareVer: int, timezone: int, uploadInterval: int, raw: seq<byte>)
  datatype ParsedStatus = StatusError | Ok(status: Status)

  function ParseStatus(body: seq<byte>): ParsedStatus {
    if |body| < 1 then StatusError
    else Ok(Status(
      if body[0] <= 100 then body[0] else -1,
      if |body| >= 2 then body[1] else 0,
      if |body| < 3 then 0 else if body[2] > 127 then (body[2] as int) - 256 else body[2],
      if |body| >= 4 then body[3] else 0,
      body))
  }

  /** Shorter status bodies: what is missing is zero. */
  lemma ShortStatus(b: seq<byte>)
    ensures |b| == 0 <==> ParseStatus(b).StatusError?
    ensures |b| == 1 ==> ParseStatus(b).status == Status(if b[0] <= 100 then b[0] else -1, 0, 0, 0, b)
    ensures |b| == 2 ==> ParseStatus(b).status == Status(if b[0] <= 100 then b[0] else -1, b[1], 0, 0, b)
    ensures |b| == 3 ==> ParseStatus(b).status.uploadInterval == 0
    ensures |b| >= 3 ==> ParseStatus(b).status.timezone == if b[2] >= 128 then (b[2] as int) - 256 else b[2]
  {}

  /** The four fields of a status body come back, a battery above 100 as unknown, the time zone as a
      signed byte, whatever follows. */
  lemma StatusBack(battery: byte, version: byte, zone: int, interval: byte, more: seq<byte>)
    requires -128 <= zone < 128
    ensures var body := [battery, version, ToByte(zone), interval] + more;
      ParseStatus(body) == Ok(Status(if battery <= 100 then battery else -1, version, zone, interval, body))
  {}
}
