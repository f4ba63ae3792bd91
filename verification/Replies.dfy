/** Reply frames (internal/protocol/frame.go, internal/protocol/commands.go). */
module Replies {
  import opened Bytes
  import opened Framing
  import Crc
  import W = WifiLbs

  const LOGIN_ACK: seq<byte> := [0x78, 0x78, 0x01, 0x01, 0x0D, 0x0A]

  const DEFAULT_SETTINGS: seq<byte> :=
    [0x78, 0x78, 0x1F, 0x57, 0x00, 0x10, 0x01,
     0x7F, 0x18, 0x26, 0x00, 0x00, 0x00, 0x00, 0x00, 0x00,
     0x00, 0x00, 0x00, 0x00, 0x00, 0x00, 0x00, 0x00, 0x00, 0x00,
     0x00, 0x00, 0x00, 0x00, 0x00,
     0x3B, 0x3B, 0x3B, 0x0D, 0x0A]

  const NO_TIME: seq<byte> := [0, 0, 0, 0, 0, 0]

  function DatetimeFromBody(body: seq<byte>): (dt: seq<byte>)
    ensures |dt| == 6
  {
    if |body| >= 6 then body[..6] else NO_TIME
  }

  /** 78 78 00 PROTO, the six datetime bytes, 0D 0A; zeros when fewer than six are given. */
  function DatetimeAck(proto: byte, datetime: seq<byte>): seq<byte> {
    [0x78, 0x78, 0x00, proto] + (if |datetime| < 6 then NO_TIME else datetime[..6]) + [0x0D, 0x0A]
  }

  method BuildDatetimeACK(proto: byte, datetime: seq<byte>) returns (buf: array<byte>)
    ensures fresh(buf) && buf[..] == DatetimeAck(proto, datetime)
  {
    var dt := datetime;
    if |dt| < 6 {
      dt := NO_TIME;
    }
    buf := new byte[12];
    buf[0], buf[1] := 0x78, 0x78;
    buf[2] := 0x00;
    buf[3] := proto;
    forall i | 0 <= i < 6 {
      buf[4 + i] := dt[i];
    }
    buf[10], buf[11] := 0x0D, 0x0A;
    assert buf[4..10] == dt[..6];
  }

  /** The received frame itself, or a minimal status acknowledgement. */
  function StatusEcho(raw: seq<byte>): seq<byte> {
    if |raw| >= 5 then raw else [0x78, 0x78, 0x01, MsgStatus, 0x0D, 0x0A]
  }

  /** 78 78 07 30, the year in two bytes, month to second in one each, 0D 0A. */
  function TimeSyncReply(t: W.DateTime): seq<byte> {
    [0x78, 0x78, 0x07, MsgTimeSync] + PutBE16(t.year % 0x1_0000)
    + [ToByte(t.month), ToByte(t.day), ToByte(t.hour), ToByte(t.minute), ToByte(t.second)] + [0x0D, 0x0A]
  }

  method BuildTimeSyncReply(t: W.DateTime) returns (buf: array<byte>)
    ensures fresh(buf) && buf[..] == TimeSyncReply(t)
  {
    buf := new byte[13];
    buf[0], buf[1] := 0x78, 0x78;
    buf[2] := 0x07;
    buf[3] := MsgTimeSync;
    buf[4], buf[5] := t.year % 0x1_0000 / 256, t.year % 0x1_0000 % 256;
    buf[6] := ToByte(t.month);
    buf[7] := ToByte(t.day);
    buf[8] := ToByte(t.hour);
    buf[9] := ToByte(t.minute);
    buf[10] := ToByte(t.second);
    buf[11], buf[12] := 0x0D, 0x0A;
  }

  // ----- the classic acknowledgement, the only frame with a CRC -----

  /** What its CRC covers: from the length byte through the serial. */
  function Covered(proto: byte, serial: int): (s: seq<byte>)
    requires 0 <= serial < 0x1_0000
    ensures |s| == 4
  {
    [0x05, proto] + PutBE16(serial)
  }

  method BuildACK(proto: byte, serial: int) returns (buf: array<byte>)
    requires 0 <= serial < 0x1_0000
    ensures 0 <= Crc.NumCrc(Covered(proto, serial)) < 0x1_0000
    ensures fresh(buf)
    ensures buf[..] == [0x78, 0x78] + Covered(proto, serial) + PutBE16(Crc.NumCrc(Covered(proto, serial))) + [0x0D, 0x0A]
  {
    hide Crc.NumCrc;
    buf := new byte[10];
    buf[0], buf[1] := 0x78, 0x78;
    buf[2], buf[3] := 0x05, proto;
    buf[4], buf[5] := serial / 256, serial % 256;
    assert buf[2..6] == Covered(proto, serial);
    var crc := Crc.CRC16X25(buf[2..6]);
    Crc.CrcIsShiftRegister(buf[2..6]);
    buf[6], buf[7] := crc / 256, crc % 256;
    buf[8], buf[9] := 0x0D, 0x0A;
  }

  /** The CRC goes out high byte first, against its own bit order: a receiver that runs the loops
      over the check bytes as they come gets the good-FCS value only if the two bytes are equal, and
      always gets it after swapping them. */
  lemma AckChecksOnlySwapped(proto: byte, serial: int, hi: byte, lo: byte)
    requires 0 <= serial < 0x1_0000 && 0 <= Crc.NumCrc(Covered(proto, serial)) < 0x1_0000
    requires [hi, lo] == PutBE16(Crc.NumCrc(Covered(proto, serial)))
    ensures Crc.NumFeed(0xFFFF, Covered(proto, serial) + [lo, hi]) == 0xF0B8
    ensures Crc.NumFeed(0xFFFF, Covered(proto, serial) + [hi, lo]) == 0xF0B8 <==> hi == lo
  {
    hide Crc.NumCrc, Crc.NumFeed, Covered;
    var crc := Crc.NumCrc(Covered(proto, serial));
    assert [hi, lo][0] == crc / 256 && [hi, lo][1] == crc % 256;
    Crc.ResidueIffOwnCrc(Covered(proto, serial), lo, hi);
    Crc.ResidueIffOwnCrc(Covered(proto, serial), hi, lo);
  }
}
