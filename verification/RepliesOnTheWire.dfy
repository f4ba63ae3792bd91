/** The replies byte by byte, and which of them the gateway's own decoder would take for frames
    (internal/protocol/frame.go, internal/protocol/commands.go, internal/server/server.go). */
module RepliesOnTheWire {
  import opened Bytes
  import opened Numbers
  import opened Framing
  import opened FramingTheorems
  import opened WifiFraming
  import opened WifiNumbers
  import opened WireFormat
  import opened Replies
  import opened HandlerTheorems
  import opened Handler
  import W = WifiLbs

  // ----- the time reply -----

  /** A clock reading whose fields fit the reply. */
  predicate Fits7(t: W.DateTime) {
    && 0 <= t.year < 0x1_0000 && 0 <= t.month < 256 && 0 <= t.day < 256
    && 0 <= t.hour < 256 && 0 <= t.minute < 256 && 0 <= t.second < 256
  }

  /** Year in two bytes, high byte first, then month, day, hour, minute, second in one each. */
  function TimeBytes(t: W.DateTime): (s: seq<byte>)
    requires Fits7(t)
    ensures |s| == 7
  {
    [t.year / 256, t.year % 256, t.month, t.day, t.hour, t.minute, t.second]
  }

  lemma SmallByte(v: int)
    requires 0 <= v < 256
    ensures ToByte(v) == v
  {}

  lemma YearBytes(v: int)
    requires 0 <= v < 0x1_0000
    ensures v % 0x1_0000 == v && Two(v / 256, v % 256) == v && PutBE16(v) == [v / 256, v % 256]
  {}

  lemma TimeReplyInBytes(t: W.DateTime)
    requires Fits7(t)
    ensures TimeSyncReply(t) == [0x78, 0x78, 0x07, 0x30] + TimeBytes(t) + [0x0D, 0x0A]
    ensures var b := TimeBytes(t); W.DateTime(Two(b[0], b[1]), b[2], b[3], b[4], b[5], b[6]) == t
  {
    YearBytes(t.year);
    SmallByte(t.month);
    SmallByte(t.day);
    SmallByte(t.hour);
    SmallByte(t.minute);
    SmallByte(t.second);
    hide ToByte, PutBE16, Two;
    assert [t.year / 256, t.year % 256] + [t.month, t.day, t.hour, t.minute, t.second] == TimeBytes(t);
  }

  /** Some field is 13 and the next is 10. */
  predicate ThirteenTen(t: W.DateTime) {
    || (t.year == 0x0D0A) || (t.year % 256 == 13 && t.month == 10) || (t.month == 13 && t.day == 10)
    || (t.day == 13 && t.hour == 10) || (t.hour == 13 && t.minute == 10) || (t.minute == 13 && t.second == 10)
  }

  /** The reply holds its own trailer early exactly then; otherwise the decoder returns it whole. */
  lemma TimeReplyExtractedIff(t: W.DateTime, tail: seq<byte>)
    requires Fits7(t)
    ensures Extract(TimeSyncReply(t) + tail) == Got(Frame(0x30, TimeBytes(t), 0, TimeSyncReply(t)), 13) <==> !ThirteenTen(t)
  {
    hide Extract, NoPairFrom, ThirteenTen, TimeSyncReply;
    TimeReplyInBytes(t);
    ShortFrameInBytes(0x07, 0x30, TimeBytes(t), tail);
    PairInTime(t);
  }

  lemma PairInTime(t: W.DateTime)
    requires Fits7(t)
    ensures NoPairFrom(TimeBytes(t), 0) <==> !ThirteenTen(t)
  {
    var b := TimeBytes(t);
    if NoPairFrom(b, 0) {
      assert forall i :: i in [0, 1, 2, 3, 4, 5] ==> !(b[i] == 0x0D && b[i + 1] == 0x0A);
      assert !(b[0] == 0x0D && b[1] == 0x0A) && !(b[1] == 0x0D && b[2] == 0x0A) && !(b[2] == 0x0D && b[3] == 0x0A);
      assert !(b[3] == 0x0D && b[4] == 0x0A) && !(b[4] == 0x0D && b[5] == 0x0A) && !(b[5] == 0x0D && b[6] == 0x0A);
    }
  }

  // ----- the constant replies -----

  /** A login needs nine bytes, so the login reply is never taken for one. */
  lemma LoginReplyIsNoLogin(tail: seq<byte>)
    ensures LOGIN_ACK == [0x78, 0x78, 0x01, 0x01, 0x0D, 0x0A]
    ensures Extract(LOGIN_ACK + tail) != Got(Frame(0x01, [], 0, LOGIN_ACK), 6)
  {
    hide Extract;
    ShortFrameInBytes(0x01, 0x01, [], tail);
    assert [0x78, 0x78, 0x01, 0x01] + [] + [0x0D, 0x0A] == LOGIN_ACK;
  }

  /** The settings come out whole, whatever follows. */
  lemma SettingsExtracted(tail: seq<byte>)
    ensures |DEFAULT_SETTINGS| == 36
    ensures Extract(DEFAULT_SETTINGS + tail) == Got(Frame(0x57, DEFAULT_SETTINGS[4..34], 0, DEFAULT_SETTINGS), 36)
  {
    hide Extract;
    var body := DEFAULT_SETTINGS[4..34];
    assert [0x78, 0x78, 0x1F, 0x57] + body + [0x0D, 0x0A] == DEFAULT_SETTINGS;
    forall i | 0 <= i < 29 ensures !(body[i] == 0x0D && body[i + 1] == 0x0A) {
      assert body[i] == DEFAULT_SETTINGS[i + 4];
    }
    ShortFrameInBytes(0x1F, 0x57, body, tail);
  }

  // ----- the datetime reply -----

  /** A fix needs eighteen bytes, so its reply is never taken for one; the reply to a report is taken
      for a report exactly when what follows supplies no header. */
  lemma DatetimeReplyExtracted(proto: byte, datetime: seq<byte>, tail: seq<byte>)
    requires |datetime| == 6
    ensures DatetimeAck(proto, datetime) == [0x78, 0x78, 0x00, proto] + datetime + [0x0D, 0x0A]
    ensures var raw := DatetimeAck(proto, datetime);
      && (CarriesFix(proto) ==> Extract(raw + tail) != Got(Frame(proto, datetime, 0, raw), 12))
      && (CarriesWifi(proto) ==>
            (Extract(raw + tail) == Got(Frame(proto, datetime, 0, raw), 12) <==> FirstFit([0x0D, 0x0A] + tail, -1)))
  {
    assert datetime[..6] == datetime;
    hide Extract, FirstFit, W.FindHeader, NoPairFrom;
    var raw := DatetimeAck(proto, datetime);
    ProtocolNumbers(proto);
    if CarriesFix(proto) {
      ShortFrameInBytes(0x00, proto, datetime, tail);
      TooShort(datetime, 18);
    }
    if CarriesWifi(proto) {
      ReportReply(proto, datetime, tail);
    }
  }

  lemma TooShort(body: seq<byte>, m: nat)
    requires |body| < m
    ensures !NoPairFrom(body, m)
  {}

  lemma ReportReply(proto: byte, datetime: seq<byte>, tail: seq<byte>)
    requires |datetime| == 6 && IsWifi(proto)
    ensures var raw := ShortBytes(0x00, proto, datetime);
      Extract(raw + tail) == Got(Frame(proto, datetime, 0, raw), 12) <==> FirstFit([0x0D, 0x0A] + tail, -1)
  {
    hide Extract, FirstFit, W.FindHeader, Encode, FirstPlausible;
    ShortIsEncoded(0x00, proto, datetime);
    NoneInNothing(datetime[6..]);
    HeaderlessFramedIff(Short, [0x00], proto, datetime, tail);
    assert datetime[6..] + (TRAILER + tail) == [0x0D, 0x0A] + tail;
    HeaderInNumbers([0x0D, 0x0A] + tail, -1);
  }

  lemma NoneInNothing(rest: seq<byte>)
    requires rest == []
    ensures FirstPlausible(rest) == -1
  {}

  // ----- who is answered, and with what -----

  /** The replies in numbers. Of the frames that only some answer: fixes once logged in. */
  lemma RepliesInNumbers(f: Frame, loggedIn: bool, now: W.DateTime)
    ensures MustReply(f, loggedIn) <==>
      f.proto == 0x01 || f.proto == 0x30 || f.proto == 0x57 || f.proto == 0x13
      || (CarriesFix(f.proto) && loggedIn) || CarriesWifi(f.proto)
    ensures LogsIn(f) <==> f.proto == 0x01 && |f.body| >= 8
    ensures f.proto == 0x01 ==> Reply(f, now) == [0x78, 0x78, 0x01, 0x01, 0x0D, 0x0A]
    ensures f.proto == 0x30 && Fits7(now) ==>
      Reply(f, now) == [0x78, 0x78, 0x07, 0x30] + TimeBytes(now) + [0x0D, 0x0A]
    ensures f.proto == 0x57 ==> Reply(f, now) == DEFAULT_SETTINGS
    ensures f.proto == 0x13 ==> Reply(f, now) == if |f.raw| >= 5 then f.raw else [0x78, 0x78, 0x01, 0x13, 0x0D, 0x0A]
    ensures (CarriesFix(f.proto) || CarriesWifi(f.proto)) && |f.body| >= 6 ==>
      Reply(f, now) == [0x78, 0x78, 0x00, f.proto] + f.body[..6] + [0x0D, 0x0A]
    ensures (CarriesFix(f.proto) || CarriesWifi(f.proto)) && |f.body| < 6 ==>
      Reply(f, now) == [0x78, 0x78, 0x00, f.proto, 0, 0, 0, 0, 0, 0, 0x0D, 0x0A]
  {
    hide DatetimeAck, TimeSyncReply, DatetimeFromBody;
    ProtocolNumbers(f.proto);
    if Fits7(now) { TimeReplyInBytes(now); }
    LongBodies(f.proto, f.body);
    if |f.body| < 6 { NoDatetime(f.proto, f.body); }
  }

  lemma NoDatetime(proto: byte, body: seq<byte>)
    requires |body| < 6
    ensures DatetimeAck(proto, DatetimeFromBody(body)) == [0x78, 0x78, 0x00, proto, 0, 0, 0, 0, 0, 0, 0x0D, 0x0A]
  {}
}
