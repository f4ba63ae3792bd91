/** The tracker simulator's packets (cmd/toy/main.go) and what the gateway makes of them. */
module Toy {
  import opened Bytes
  import opened Framing
  import opened FramingTheorems
  import opened Stream
  import opened StreamTheorems
  import Login
  import opened Gps
  import W = WifiLbs

  // ----- packet builders -----

  /** Fatal when imeiToBCD is. */
  function BuildLogin(imei: seq<byte>): seq<byte>
    requires Login.ToBcd(imei).Block?
  {
    [0x78, 0x78, 0x0A, 0x01] + Login.ToBcd(imei).bytes + [0x39] + [0x0D, 0x0A]
  }

  const TIME_SYNC: seq<byte> := [0x78, 0x78, 0x01, 0x30, 0x0D, 0x0A]

  const STATUS: seq<byte> := [0x78, 0x78, 0x06, 0x13, 0x64, 0x39, 0x03, 0x02, 0x0D, 0x0A]

  function Abs(x: real): real { if x < 0.0 then -x else x }

  /** uint32(math.Abs(x) * 1_800_000); Go leaves the conversion undefined beyond 32 bits. */
  function Raw(x: real): (r: int)
    requires Abs(x) * 1_800_000.0 < 4_294_967_296.0
    ensures 0 <= r < 0x1_0000_0000
    ensures r as real <= Abs(x) * 1_800_000.0 < r as real + 1.0
  {
    (Abs(x) * 1_800_000.0).Floor
  }

  /** A fix as buildGPS takes it, with the clock reading it makes. */
  datatype GpsInput = GpsInput(lat: real, lon: real, speedKmh: int, heading: int, now: W.DateTime)

  predicate Representable(g: GpsInput) {
    && Abs(g.lat) * 1_800_000.0 < 4_294_967_296.0 && Abs(g.lon) * 1_800_000.0 < 4_294_967_296.0
    && 0 <= g.speedKmh < 0x1_0000 && 0 <= g.heading < 0x1_0000
  }

  function ClockBytes(t: W.DateTime): (s: seq<byte>)
    ensures |s| == 6
  {
    [ToByte(t.year - 2000), ToByte(t.month), ToByte(t.day), ToByte(t.hour), ToByte(t.minute), ToByte(t.second)]
  }

  /** statusByte: 0x34 with its two low bits replaced by heading bits 9 and 8. */
  function StatusByte(heading: int): (b: byte)
    requires 0 <= heading < 0x1_0000
    ensures b == 0x34 + heading / 0x100 % 4
  {
    HeadingBits(heading / 0x100 % 4);
    BitOr(0x34 / 4 * 4, heading / 0x100 % 4)
  }

  lemma HeadingBits(x: nat)
    requires x < 4
    ensures BitOr(0x34, x) == 0x34 + x
  {
    assert x / 2 / 2 == 0;
    Login.OrTwice(13, x / 2);
    Login.OrTwice(26, x);
  }

  function GpsBody(g: GpsInput): (s: seq<byte>)
    requires Representable(g)
    ensures |s| == 18
  {
    ClockBytes(g.now) + [0x9C] + PutBE32(Raw(g.lat)) + PutBE32(Raw(g.lon))
    + [ToByte(g.speedKmh)] + [StatusByte(g.heading), ToByte(g.heading)]
  }

  function BuildGPS(g: GpsInput): seq<byte>
    requires Representable(g)
  {
    [0x78, 0x78, 0x12, 0x10] + GpsBody(g) + [0x0D, 0x0A]
  }

  // ----- the GPS round trip -----

  lemma GpsBodyFields(g: GpsInput)
    requires Representable(g)
    ensures var b := GpsBody(g);
      && b[..6] == ClockBytes(g.now) && b[6] == 0x9C
      && BE32(b[7], b[8], b[9], b[10]) == Raw(g.lat) && BE32(b[11], b[12], b[13], b[14]) == Raw(g.lon)
      && b[15] == ToByte(g.speedKmh) && b[16] == StatusByte(g.heading) && b[17] == ToByte(g.heading)
  {}

  lemma WithinOneUnit(x: real)
    requires Abs(x) * 1_800_000.0 < 4_294_967_296.0
    ensures 0.0 <= Abs(x) - Degrees(Raw(x)) < 1.0 / 1_800_000.0
  {}

  lemma HeadingBack(heading: int)
    requires 0 <= heading < 0x1_0000
    ensures BE16(StatusByte(heading), ToByte(heading)) % 0x400 == heading % 0x400
  {
    hide StatusByte;
    var low := 0x100 * (heading / 0x100 % 4) + heading % 0x100;
    LowTenBits(13, low);
    LowTenBits(heading / 0x400, low);
    assert heading / 0x100 / 4 == heading / 0x400;
  }

  lemma LowTenBits(k: nat, low: nat)
    requires low < 0x400
    ensures (0x400 * k + low) % 0x400 == low
  {}

  /** A clock reading whose fields survive the conversion to bytes. */
  predicate FitsClock(t: W.DateTime) {
    && 2000 <= t.year < 2256 && 0 <= t.month < 256 && 0 <= t.day < 256
    && 0 <= t.hour < 256 && 0 <= t.minute < 256 && 0 <= t.second < 256
  }

  /** Building a fix and parsing its body loses less than one unit of 1/1,800,000 degree, the sign,
      the heading's bits above ten, the speed's above eight and the clock's beyond a byte; nothing
      else. */
  lemma GpsRoundTrip(g: GpsInput)
    requires Representable(g)
    ensures ParseGPS(GpsBody(g)).Fix?
    ensures var p := ParseGPS(GpsBody(g)).position;
      && 0.0 <= Abs(g.lat) - p.latitude < 1.0 / 1_800_000.0
      && 0.0 <= Abs(g.lon) - p.longitude < 1.0 / 1_800_000.0
      && (p.course == g.heading <==> g.heading < 0x400)
      && (p.speedKmh == g.speedKmh <==> g.speedKmh < 0x100)
      && (p.time == g.now <==> FitsClock(g.now))
      && (p.latitude > 0.0 && p.longitude > 0.0 ==> p.valid) && p.satellites == 12
  {
    hide Degrees, Abs, Raw, GpsBody, ParseGPS, StatusByte, ClockBack;
    GpsParsed(g);
    ClockBackIff(g.now);
    WithinOneUnit(g.lat);
    WithinOneUnit(g.lon);
  }

  lemma GpsParsed(g: GpsInput)
    requires Representable(g)
    ensures ParseGPS(GpsBody(g)).Fix?
    ensures var p := ParseGPS(GpsBody(g)).position;
      && p.latitude == Degrees(Raw(g.lat)) && p.longitude == Degrees(Raw(g.lon))
      && p.course == g.heading % 0x400 && p.speedKmh == g.speedKmh % 0x100 && p.satellites == 12
      && (p.latitude != 0.0 && p.longitude != 0.0 ==> p.valid)
      && p.time == ClockBack(g.now)
  {
    hide Degrees, Abs, Raw, GpsBody;
    GpsBodyFields(g);
    ClockOf(g);
    HeadingBack(g.heading);
  }

  function ClockBack(t: W.DateTime): W.DateTime {
    W.DateTime(2000 + (ToByte(t.year - 2000) as int), ToByte(t.month), ToByte(t.day),
               ToByte(t.hour), ToByte(t.minute), ToByte(t.second))
  }

  lemma ClockOf(g: GpsInput)
    requires Representable(g)
    ensures var b := GpsBody(g);
      W.DateTime(2000 + (b[0] as int), b[1], b[2], b[3], b[4], b[5]) == ClockBack(g.now)
  {
    hide GpsBody, ToByte;
    GpsBodyFields(g);
    FirstSix(GpsBody(g), ClockBytes(g.now));
  }

  lemma FirstSix(b: seq<byte>, c: seq<byte>)
    requires |b| >= 6 && b[..6] == c
    ensures b[0] == c[0] && b[1] == c[1] && b[2] == c[2] && b[3] == c[3] && b[4] == c[4] && b[5] == c[5]
  {}

  lemma ByteBack(v: int)
    ensures ToByte(v) == v <==> 0 <= v < 256
  {}

  lemma ClockBackIff(t: W.DateTime)
    ensures ClockBack(t) == t <==> FitsClock(t)
  {
    hide ToByte;
    ByteBack(t.year - 2000);
    ByteBack(t.month);
    ByteBack(t.day);
    ByteBack(t.hour);
    ByteBack(t.minute);
    ByteBack(t.second);
  }

  // ----- simulator streams -----

  datatype Packet = LoginPacket(imei: seq<byte>) | TimeSyncPacket | GpsPacket(input: GpsInput) | StatusPacket

  predicate Sendable(p: Packet) {
    match p
    case LoginPacket(imei) => Login.ToBcd(imei).Block?
    case GpsPacket(g) => Representable(g)
    case _ => true
  }

  function Build(p: Packet): seq<byte>
    requires Sendable(p)
  {
    match p
    case LoginPacket(imei) => BuildLogin(imei)
    case TimeSyncPacket => TIME_SYNC
    case GpsPacket(g) => BuildGPS(g)
    case StatusPacket => STATUS
  }

  function ProtoOf(p: Packet): byte {
    match p
    case LoginPacket(_) => MsgLogin
    case TimeSyncPacket => MsgTimeSync
    case GpsPacket(_) => MsgGPS
    case StatusPacket => MsgStatus
  }

  function BodyOf(p: Packet): seq<byte>
    requires Sendable(p)
  {
    match p
    case LoginPacket(imei) => Login.ToBcd(imei).bytes + [0x39]
    case TimeSyncPacket => []
    case GpsPacket(g) => GpsBody(g)
    case StatusPacket => [0x64, 0x39, 0x03, 0x02]
  }

  /** The frame the gateway should see. */
  function Sent(p: Packet): Frame
    requires Sendable(p)
  {
    Frame(ProtoOf(p), BodyOf(p), 0, Build(p))
  }

  function LengthByte(p: Packet): byte {
    match p
    case LoginPacket(_) => 0x0A
    case TimeSyncPacket => 0x01
    case GpsPacket(_) => 0x12
    case StatusPacket => 0x06
  }

  /** A simulator packet is an encoded frame whose body has exactly its protocol's minimum. */
  lemma SentIsMinimal(p: Packet)
    requires Sendable(p)
    ensures Sent(p) == FrameOf(Short, [LengthByte(p)], ProtoOf(p), BodyOf(p))
    ensures |BodyOf(p)| == MinContent(ProtoOf(p)) && !IsWifi(ProtoOf(p))
  {
    var proto, body := ProtoOf(p), BodyOf(p);
    assert Encode(Short, [LengthByte(p)], proto, body) == [0x78, 0x78, LengthByte(p), proto] + body + [0x0D, 0x0A];
    match p
    case LoginPacket(imei) =>
      assert [0x78, 0x78, 0x0A, 0x01] + (Login.ToBcd(imei).bytes + [0x39]) + [0x0D, 0x0A] == BuildLogin(imei);
    case TimeSyncPacket =>
    case GpsPacket(_) =>
    case StatusPacket =>
  }

  lemma SentIsSolid(p: Packet)
    requires Sendable(p)
    ensures Solid(Sent(p))
  {
    hide Solid, Extract, Encode;
    var proto, body := ProtoOf(p), BodyOf(p);
    SentIsMinimal(p);
    SurvivesIffClean(proto, body);
    SolidIffSurvives(Short, [LengthByte(p)], proto, body);
  }

  function AllSent(ps: seq<Packet>): (fs: seq<Frame>)
    requires forall i :: 0 <= i < |ps| ==> Sendable(ps[i])
    ensures |fs| == |ps| && forall i :: 0 <= i < |ps| ==> fs[i] == Sent(ps[i])
  {
    seq(|ps|, i requires 0 <= i < |ps| => Sent(ps[i]))
  }

  /** Any list of simulator packets, for any identities, positions and clock readings, cut into
      reads in any way, is recovered exactly, with nothing left in the buffer. */
  lemma SimulatorStream(ps: seq<Packet>, chunks: seq<seq<byte>>)
    requires forall i :: 0 <= i < |ps| ==> Sendable(ps[i])
    requires Concat(chunks) == Raws(AllSent(ps))
    ensures Feed([], chunks) == Fed(AllSent(ps), [])
  {
    hide Solid;
    forall i | 0 <= i < |ps| ensures Solid(AllSent(ps)[i]) { SentIsSolid(ps[i]); }
    WholeStream(AllSent(ps), chunks);
  }
}
