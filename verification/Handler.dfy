/** One connection: what it writes and publishes for the frames it receives
    (internal/server/server.go, handleConn, drainFrames, handleFrame, ensureTBConnected). */
module Handler {
  import opened Bytes
  import opened Framing
  import opened FramingTheorems
  import opened Stream
  import opened Replies
  import Login
  import opened Gps
  import W = WifiLbs

  /** Everything the world answers while one frame is handled: the clock, the registry, whether the
      session table shows the device as connected, ThingsBoard's answer to a connect, whether an
      ICCID has printable text, and whether geolocation is enabled. */
  datatype Env = Env(now: W.DateTime, allowed: bool, flagged: bool, connectOk: bool, textOk: bool, geo: bool)

  datatype Event =
    | Write(bytes: seq<byte>)
    | Register(imei: seq<byte>)
    | Checked(imei: seq<byte>, allowed: bool)
    | Connect(imei: seq<byte>, ok: bool)
    | Publish(imei: seq<byte>)
    | GoConnect(imei: seq<byte>)   // go s.maybeConnectTB
    | GoLocate(imei: seq<byte>)    // go s.resolveAndPublishLBS

  /** publishTelemetry and publishLocation with ensureTBConnected inside; an empty identity means
      that no login was seen. */
  function PublishEvents(imei: seq<byte>, e: Env): seq<Event> {
    if imei == [] then []
    else if !e.allowed then [Checked(imei, false)]
    else if e.flagged then [Checked(imei, true), Publish(imei)]
    else if e.connectOk then [Checked(imei, true), Connect(imei, true), Publish(imei)]
    else [Checked(imei, true), Connect(imei, false)]
  }

  /** The events of handleFrame, in order. */
  function HandleEvents(imei: seq<byte>, f: Frame, e: Env): seq<Event> {
    if f.proto == MsgLogin then
      match Login.Parse(f.body)
      case LoginError => [Write(LOGIN_ACK)]
      case Imei(id) => [Register(id), Write(LOGIN_ACK), GoConnect(id)]
    else if f.proto == MsgTimeSync then [Write(TimeSyncReply(e.now))]
    else if f.proto == MsgParam then [Write(DEFAULT_SETTINGS)]
    else if f.proto == MsgICCID then if e.textOk then PublishEvents(imei, e) else []
    else if f.proto == MsgStatus then
      (match ParseStatus(f.body)
       case StatusError => []
       case Ok(st) => if st.batteryPercent >= 0 then PublishEvents(imei, e) else [])
      + [Write(StatusEcho(f.raw))]
    else if IsGps(f.proto) then
      if imei == [] then [] else
      (if ParseGPS(f.body).Fix? then PublishEvents(imei, e) else [])
      + [Write(DatetimeAck(f.proto, DatetimeFromBody(f.body)))]
    else if IsWifi(f.proto) then
      (if W.Parse(f.body).Parsed? && imei != [] && e.geo then [GoLocate(imei)] else [])
      + [Write(DatetimeAck(f.proto, DatetimeFromBody(f.body)))]
    else []
  }

  function NextImei(imei: seq<byte>, f: Frame): seq<byte> {
    if f.proto == MsgLogin && Login.Parse(f.body).Imei? then Login.Parse(f.body).digits else imei
  }

  type World = nat -> Env

  /** The events of a list of frames, the n-th frame of the connection meeting world(n). */
  function Run(imei: seq<byte>, frames: seq<Frame>, world: World, n: nat): seq<Event>
    decreases |frames|
  {
    if frames == [] then [] else
      HandleEvents(imei, frames[0], world(n)) + Run(NextImei(imei, frames[0]), frames[1..], world, n + 1)
  }

  function RunImei(imei: seq<byte>, frames: seq<Frame>): seq<byte>
    decreases |frames|
  {
    if frames == [] then imei else RunImei(NextImei(imei, frames[0]), frames[1..])
  }

  lemma {:induction false} RunConcat(imei: seq<byte>, a: seq<Frame>, b: seq<Frame>, world: World, n: nat)
    ensures Run(imei, a + b, world, n) == Run(imei, a, world, n) + Run(RunImei(imei, a), b, world, n + |a|)
    ensures RunImei(imei, a + b) == RunImei(RunImei(imei, a), b)
    decreases |a|
  {
    hide HandleEvents, NextImei;
    if a == [] {
      assert a + b == b;
    } else {
      assert (a + b)[1..] == a[1..] + b;
      RunConcat(NextImei(imei, a[0]), a[1..], b, world, n + 1);
    }
  }

  // ----- the connection object -----

  class Connection {
    const world: World
    var buf: seq<byte>
    var imei: seq<byte>
    var events: seq<Event>
    var served: nat

    constructor (world: World)
      ensures this.world == world && buf == [] && imei == [] && events == [] && served == 0
    {
      this.world := world;
      buf, imei, events, served := [], [], [], 0;
    }

    method PublishTelemetry(e: Env)
      modifies this`events
      ensures events == old(events) + PublishEvents(imei, e)
    {
      if imei == [] {
        return;
      }
      events := events + [Checked(imei, e.allowed)];
      if !e.allowed {
        return;
      }
      if !e.flagged {
        events := events + [Connect(imei, e.connectOk)];
        if !e.connectOk {
          return;
        }
      }
      events := events + [Publish(imei)];
    }

    method HandleFrame(f: Frame)
      modifies this`imei, this`events, this`served
      ensures events == old(events) + HandleEvents(old(imei), f, world(old(served)))
      ensures imei == NextImei(old(imei), f) && served == old(served) + 1
    {
      hide W.Parse, ParseGPS, ParseStatus, DatetimeAck, TimeSyncReply, DatetimeFromBody, PublishEvents;
      var e := world(served);
      served := served + 1;
      if f.proto == MsgLogin {
        var login := Login.ParseLogin(f.body);
        if login.LoginError? {
          events := events + [Write(LOGIN_ACK)];
          return;
        }
        imei := login.digits;
        events := events + [Register(imei), Write(LOGIN_ACK), GoConnect(imei)];
      } else if f.proto == MsgTimeSync {
        var reply := BuildTimeSyncReply(e.now);
        events := events + [Write(reply[..])];
      } else if f.proto == MsgParam {
        events := events + [Write(DEFAULT_SETTINGS)];
      } else if f.proto == MsgICCID {
        if e.textOk {
          PublishTelemetry(e);
        }
      } else if f.proto == MsgStatus {
        var st := ParseStatus(f.body);
        if st.Ok? && st.status.batteryPercent >= 0 {
          PublishTelemetry(e);
        }
        events := events + [Write(StatusEcho(f.raw))];
      } else if IsGps(f.proto) {
        if imei == [] {
          return;
        }
        var pos := ParseGPS(f.body);
        if pos.Fix? {
          PublishTelemetry(e);
        }
        var ack := BuildDatetimeACK(f.proto, DatetimeFromBody(f.body));
        events := events + [Write(ack[..])];
      } else if IsWifi(f.proto) {
        var wl := W.ParseWifiLBS(f.body);
        if wl.Parsed? && imei != [] && e.geo {
          events := events + [GoLocate(imei)];
        }
        var ack := BuildDatetimeACK(f.proto, DatetimeFromBody(f.body));
        events := events + [Write(ack[..])];
      }
    }

    /** One read: append the chunk, then drain. */
    method OnRead(chunk: seq<byte>)
      modifies this
      ensures var fed := FeedOne(old(buf), chunk);
        && buf == fed.buf
        && imei == RunImei(old(imei), fed.frames)
        && events == old(events) + Run(old(imei), fed.frames, world, old(served))
        && served == old(served) + |fed.frames|
    {
      hide Extract, HandleEvents, NextImei, Drain;
      buf := buf + chunk;
      DrainFrames();
    }

    /** The read loop over any number of reads. */
    method Serve(chunks: seq<seq<byte>>)
      modifies this
      ensures var fed := Feed(old(buf), chunks);
        && buf == fed.buf
        && imei == RunImei(old(imei), fed.frames)
        && events == old(events) + Run(old(imei), fed.frames, world, old(served))
        && served == old(served) + |fed.frames|
    {
      hide FeedOne, HandleEvents, NextImei, Run, RunImei, Feed;
      var i := 0;
      assert chunks[0..] == chunks;
      while i < |chunks|
        invariant 0 <= i <= |chunks|
        invariant Feed(old(buf), chunks).buf == Feed(buf, chunks[i..]).buf
        invariant Remaining(old(imei), old(served), Feed(old(buf), chunks).frames, old(events),
                            imei, served, Feed(buf, chunks[i..]).frames, events)
      {
        FeedSplit(buf, chunks[i..]);
        var fed, later := FeedOne(buf, chunks[i]), chunks[i + 1..];
        assert chunks[i..][1..] == later;
        RunConcat(imei, fed.frames, Feed(fed.buf, later).frames, world, served);
        OnRead(chunks[i]);
        i := i + 1;
      }
      FeedNothing(buf, chunks[i..]);
      RunNothing(imei, served);
    }

    lemma FeedSplit(buf: seq<byte>, chunks: seq<seq<byte>>)
      requires chunks != []
      ensures var one := FeedOne(buf, chunks[0]);
        && Feed(buf, chunks).frames == one.frames + Feed(one.buf, chunks[1..]).frames
        && Feed(buf, chunks).buf == Feed(one.buf, chunks[1..]).buf
    {}

    lemma FeedNothing(buf: seq<byte>, chunks: seq<seq<byte>>)
      requires chunks == []
      ensures Feed(buf, chunks) == Fed([], buf)
    {}

    lemma RunNothing(imei: seq<byte>, n: nat)
      ensures Run(imei, [], world, n) == [] && RunImei(imei, []) == imei
    {}

    method DrainFrames()
      modifies this
      ensures buf == Drain(old(buf)).rest
      ensures var frames := Frames(Drain(old(buf)).items);
        && imei == RunImei(old(imei), frames)
        && events == old(events) + Run(old(imei), frames, world, old(served))
        && served == old(served) + |frames|
    {
      hide Extract, HandleEvents, NextImei, Drain;
      while true
        invariant Drain(old(buf)).rest == Drain(buf).rest
        invariant Remaining(old(imei), old(served), Frames(Drain(old(buf)).items), old(events),
                            imei, served, Frames(Drain(buf).items), events)
        decreases |buf|
      {
        var r := ExtractFrame(buf);
        ExtractShape(buf);
        if r == Incomplete {
          DrainStops(buf);
          break;
        }
        if !r.Got? {
          var consumed := r.consumed;
          if consumed > 0 && consumed <= |buf| {
            DrainSkips(buf, consumed);
            ConsParts(Skipped(buf[..consumed]), Drain(buf[consumed..]).items);
            buf := buf[consumed..];
          } else {
            assert false;  // every error consumes between one byte and the whole buffer
          }
          continue;
        }
        DrainTakes(buf, r.frame, r.consumed);
        buf := buf[r.consumed..];
        HandleFrame(r.frame);
      }
    }

    /** What is done so far plus what is left makes the whole. */
    ghost predicate Remaining(imei0: seq<byte>, n0: nat, all: seq<Frame>, ev0: seq<Event>,
                              imei1: seq<byte>, n1: nat, left: seq<Frame>, ev1: seq<Event>)
    {
      && RunImei(imei0, all) == RunImei(imei1, left)
      && ev0 + Run(imei0, all, world, n0) == ev1 + Run(imei1, left, world, n1)
      && n0 + |all| == n1 + |left|
    }
  }
}
