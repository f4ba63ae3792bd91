/** What the replies of a connection depend on, and what framing guarantees the parsers. */
module HandlerTheorems {
  import opened Bytes
  import opened Framing
  import opened FramingTheorems
  import opened Stream
  import opened Replies
  import opened Handler
  import opened Gps
  import opened Toy
  import Login
  import W = WifiLbs

  // ----- framing establishes the parsers' preconditions -----

  /** No frame cut from a buffer makes a parser fail or a reply builder fall back: login bodies
      give fifteen digits, fixes, reports and status bodies parse, the datetime reply repeats the
      first six body bytes and the status reply repeats the frame. */
  lemma FramedBodiesParse(buf: seq<byte>)
    requires Extract(buf).Got?
    ensures var f := Extract(buf).frame;
      && (f.proto == MsgLogin ==>
            (Login.Parse(f.body).Imei?
             && |Login.Parse(f.body).digits| == 15 && Login.IsDigits(Login.Parse(f.body).digits)))
      && (f.proto == MsgStatus ==> ParseStatus(f.body).Ok? && StatusEcho(f.raw) == f.raw)
      && (IsGps(f.proto) ==> ParseGPS(f.body).Fix?)
      && (IsWifi(f.proto) ==> W.Parse(f.body).Parsed?)
      && (IsGps(f.proto) || IsWifi(f.proto) ==>
            (|f.body| >= 6
             && DatetimeAck(f.proto, DatetimeFromBody(f.body))
                == [0x78, 0x78, 0x00, f.proto] + f.body[..6] + [0x0D, 0x0A]))
  {
    ExtractShape(buf);
    BodyAtLeastMinimum(buf);
    hide Extract, ParseGPS, W.Parse, DatetimeAck;
    var f := Extract(buf).frame;
    Login.AlwaysFifteenDigits(f.body);
    LongBodies(f.proto, f.body);
  }

  lemma LongBodies(proto: byte, body: seq<byte>)
    ensures |body| >= 18 ==> ParseGPS(body).Fix?
    ensures |body| >= 6 ==> W.Parse(body).Parsed?
    ensures |body| >= 6 ==>
      DatetimeAck(proto, DatetimeFromBody(body)) == [0x78, 0x78, 0x00, proto] + body[..6] + [0x0D, 0x0A]
  {}

  // ----- acknowledgement independence -----

  /** The writes among the events. */
  function Writes(events: seq<Event>): seq<seq<byte>> {
    if events == [] then []
    else (if events[0].Write? then [events[0].bytes] else []) + Writes(events[1..])
  }

  /** The frames the device must have answered. */
  predicate MustReply(f: Frame, loggedIn: bool) {
    f.proto == MsgLogin || f.proto == MsgTimeSync || f.proto == MsgParam || f.proto == MsgStatus
    || (IsGps(f.proto) && loggedIn) || IsWifi(f.proto)
  }

  /** The answer, from the frame and the clock alone. */
  function Reply(f: Frame, now: W.DateTime): seq<byte> {
    if f.proto == MsgLogin then LOGIN_ACK
    else if f.proto == MsgTimeSync then TimeSyncReply(now)
    else if f.proto == MsgParam then DEFAULT_SETTINGS
    else if f.proto == MsgStatus then StatusEcho(f.raw)
    else DatetimeAck(f.proto, DatetimeFromBody(f.body))
  }

  predicate LogsIn(f: Frame) { f.proto == MsgLogin && |f.body| >= 8 }

  /** One answer for each frame that must have one, in order. */
  function Acks(frames: seq<Frame>, loggedIn: bool, clock: nat -> W.DateTime, n: nat): seq<seq<byte>>
    decreases |frames|
  {
    if frames == [] then [] else
      (if MustReply(frames[0], loggedIn) then [Reply(frames[0], clock(n))] else [])
      + Acks(frames[1..], loggedIn || LogsIn(frames[0]), clock, n + 1)
  }

  lemma {:induction false} WritesConcat(a: seq<Event>, b: seq<Event>)
    ensures Writes(a + b) == Writes(a) + Writes(b)
    decreases |a|
  {
    if a == [] {
      assert a + b == b;
    } else {
      assert (a + b)[1..] == a[1..] + b;
      WritesConcat(a[1..], b);
    }
  }

  lemma PublishWritesNothing(imei: seq<byte>, e: Env)
    ensures Writes(PublishEvents(imei, e)) == []
  {
    var p := PublishEvents(imei, e);
    if |p| >= 2 { assert Writes(p[1..]) == Writes(p[1..][1..]); }
    if |p| >= 3 { assert Writes(p[1..][1..]) == Writes(p[1..][1..][1..]); }
  }

  lemma OneWrite(b: seq<byte>)
    ensures Writes([Write(b)]) == [b]
  {}

  lemma HandleWrites(imei: seq<byte>, f: Frame, e: Env)
    ensures Writes(HandleEvents(imei, f, e)) == if MustReply(f, imei != []) then [Reply(f, e.now)] else []
    ensures NextImei(imei, f) != [] <==> imei != [] || LogsIn(f)
  {
    hide ParseGPS, W.Parse, DatetimeAck, TimeSyncReply, ParseStatus, PublishEvents;
    PublishWritesNothing(imei, e);
    Login.AlwaysFifteenDigits(f.body);
    var w := [Write(Reply(f, e.now))];
    OneWrite(Reply(f, e.now));
    WritesConcat(PublishEvents(imei, e), w);
    WritesConcat([], w);
    WritesConcat([GoLocate(imei)], w);
    assert Writes([GoLocate(imei)]) == [];
    if f.proto == MsgLogin && Login.Parse(f.body).Imei? {
      var id := Login.Parse(f.body).digits;
      WritesConcat([Register(id)], w);
      WritesConcat([Register(id)] + w, [GoConnect(id)]);
      assert Writes([Register(id)]) == [] && Writes([GoConnect(id)]) == [];
      assert HandleEvents(imei, f, e) == ([Register(id)] + w) + [GoConnect(id)];
    }
  }

  function Clock(world: World): nat -> W.DateTime { (k: nat) => world(k).now }

  /** What a connection writes is determined by the frames and the clock. */
  lemma {:induction false} RunWrites(imei: seq<byte>, frames: seq<Frame>, world: World, n: nat)
    ensures Writes(Run(imei, frames, world, n)) == Acks(frames, imei != [], Clock(world), n)
    decreases |frames|
  {
    hide HandleEvents, NextImei, MustReply, Reply, LogsIn;
    if frames != [] {
      HandleWrites(imei, frames[0], world(n));
      RunWrites(NextImei(imei, frames[0]), frames[1..], world, n + 1);
      WritesConcat(HandleEvents(imei, frames[0], world(n)), Run(NextImei(imei, frames[0]), frames[1..], world, n + 1));
    }
  }

  lemma {:induction false} AcksSameClock(
    frames: seq<Frame>, loggedIn: bool, c: nat -> W.DateTime, d: nat -> W.DateTime, n: nat)
    requires forall k: nat :: c(k) == d(k)
    ensures Acks(frames, loggedIn, c, n) == Acks(frames, loggedIn, d, n)
    decreases |frames|
  {
    hide MustReply, Reply, LogsIn;
    if frames != [] { AcksSameClock(frames[1..], loggedIn || LogsIn(frames[0]), c, d, n + 1); }
  }

  /** Two runs over the same frames with the same clock readings, whatever the registry,
      ThingsBoard and geolocation answer in either, attempt the same writes in the same order. */
  lemma AckIndependence(imei: seq<byte>, frames: seq<Frame>, w1: World, w2: World, n: nat)
    requires forall k: nat :: w1(k).now == w2(k).now
    ensures Writes(Run(imei, frames, w1, n)) == Writes(Run(imei, frames, w2, n))
  {
    RunWrites(imei, frames, w1, n);
    RunWrites(imei, frames, w2, n);
    AcksSameClock(frames, imei != [], Clock(w1), Clock(w2), n);
  }

  // ----- whose data goes out -----

  /** The identity in force after some events: the last one registered. */
  function InForce(imei: seq<byte>, events: seq<Event>): seq<byte> {
    if events == [] then imei
    else var last := events[|events| - 1];
      if last.Register? then last.imei else InForce(imei, events[..|events| - 1])
  }

  predicate Uplink(e: Event) { e.Checked? || e.Connect? || e.Publish? || e.GoConnect? || e.GoLocate? }

  /** Every call to the outside is for the identity in force; none comes before a login. */
  predicate Attributed(imei: seq<byte>, events: seq<Event>) {
    forall i :: 0 <= i < |events| && Uplink(events[i]) ==>
      events[i].imei != [] && events[i].imei == InForce(imei, events[..i])
  }

  lemma {:induction false} InForceConcat(imei: seq<byte>, a: seq<Event>, b: seq<Event>)
    ensures InForce(imei, a + b) == InForce(InForce(imei, a), b)
    decreases |b|
  {
    if b == [] {
      assert a + b == a;
    } else {
      assert (a + b)[..|a + b| - 1] == a + b[..|b| - 1];
      InForceConcat(imei, a, b[..|b| - 1]);
    }
  }

  lemma AttributedConcat(imei: seq<byte>, a: seq<Event>, b: seq<Event>)
    requires Attributed(imei, a) && Attributed(InForce(imei, a), b)
    ensures Attributed(imei, a + b)
  {
    forall i | 0 <= i < |a + b| && Uplink((a + b)[i])
      ensures (a + b)[i].imei != [] && (a + b)[i].imei == InForce(imei, (a + b)[..i])
    {
      if i < |a| {
        assert (a + b)[..i] == a[..i];
      } else {
        assert (a + b)[..i] == a + b[..i - |a|];
        InForceConcat(imei, a, b[..i - |a|]);
      }
    }
  }

  /** No login among the events, and all calls for one identity. */
  predicate Steady(imei: seq<byte>, events: seq<Event>) {
    forall i :: 0 <= i < |events| ==> !events[i].Register? && (Uplink(events[i]) ==> events[i].imei == imei != [])
  }

  lemma SteadyIsAttributed(imei: seq<byte>, events: seq<Event>)
    requires Steady(imei, events)
    ensures Attributed(imei, events) && InForce(imei, events) == imei
  {
    forall i | 0 <= i < |events| ensures InForce(imei, events[..i]) == imei { SteadyInForce(imei, events[..i]); }
    SteadyInForce(imei, events);
  }

  lemma SteadyInForce(imei: seq<byte>, events: seq<Event>)
    requires Steady(imei, events)
    ensures InForce(imei, events) == imei
  {}

  lemma LoginAttributed(imei: seq<byte>, id: seq<byte>)
    requires id != []
    ensures var events := [Register(id), Write(LOGIN_ACK), GoConnect(id)];
      Attributed(imei, events) && InForce(imei, events) == id
  {
    var rest := [Write(LOGIN_ACK), GoConnect(id)];
    SteadyIsAttributed(id, rest);
    assert InForce(imei, [Register(id)]) == id;
    AttributedConcat(imei, [Register(id)], rest);
    InForceConcat(imei, [Register(id)], rest);
    assert [Register(id)] + rest == [Register(id), Write(LOGIN_ACK), GoConnect(id)];
  }

  lemma HandleAttributed(imei: seq<byte>, f: Frame, e: Env)
    ensures Attributed(imei, HandleEvents(imei, f, e))
    ensures InForce(imei, HandleEvents(imei, f, e)) == NextImei(imei, f)
  {
    hide ParseGPS, W.Parse, DatetimeAck, TimeSyncReply, StatusEcho, Attributed, InForce;
    if f.proto == MsgLogin && Login.Parse(f.body).Imei? {
      Login.AlwaysFifteenDigits(f.body);
      LoginAttributed(imei, Login.Parse(f.body).digits);
    } else {
      SteadyIsAttributed(imei, HandleEvents(imei, f, e));
    }
  }

  /** In every run of a connection, each registry check, connect, publish and started goroutine is
      for the identity of the last login before it, whatever the backends answer. */
  lemma {:induction false} RunAttributed(imei: seq<byte>, frames: seq<Frame>, world: World, n: nat)
    ensures Attributed(imei, Run(imei, frames, world, n))
    decreases |frames|
  {
    hide HandleEvents, NextImei;
    if frames != [] {
      HandleAttributed(imei, frames[0], world(n));
      RunAttributed(NextImei(imei, frames[0]), frames[1..], world, n + 1);
      AttributedConcat(imei, HandleEvents(imei, frames[0], world(n)),
                       Run(NextImei(imei, frames[0]), frames[1..], world, n + 1));
    }
  }

  // ----- a simulator session, from bytes to replies -----

  /** The replies the simulator should see. */
  function Expected(ps: seq<Packet>, loggedIn: bool, clock: nat -> W.DateTime, n: nat): seq<seq<byte>>
    requires forall i :: 0 <= i < |ps| ==> Sendable(ps[i])
    decreases |ps|
  {
    if ps == [] then [] else
      (match ps[0]
       case LoginPacket(_) => [LOGIN_ACK]
       case TimeSyncPacket => [TimeSyncReply(clock(n))]
       case GpsPacket(g) => if loggedIn then [[0x78, 0x78, 0x00, MsgGPS] + ClockBytes(g.now) + [0x0D, 0x0A]] else []
       case StatusPacket => [STATUS])
      + Expected(ps[1..], loggedIn || ps[0].LoginPacket?, clock, n + 1)
  }

  lemma {:induction false} AcksOfSimulator(ps: seq<Packet>, loggedIn: bool, clock: nat -> W.DateTime, n: nat)
    requires forall i :: 0 <= i < |ps| ==> Sendable(ps[i])
    ensures Acks(AllSent(ps), loggedIn, clock, n) == Expected(ps, loggedIn, clock, n)
    decreases |ps|
  {
    if ps != [] {
      assert AllSent(ps)[1..] == AllSent(ps[1..]);
      ReplyToSent(ps[0], clock(n));
      AcksOfSimulator(ps[1..], loggedIn || ps[0].LoginPacket?, clock, n + 1);
    }
  }

  lemma ReplyToSent(p: Packet, now: W.DateTime)
    requires Sendable(p)
    ensures MustReply(Sent(p), true) && (MustReply(Sent(p), false) <==> !p.GpsPacket?)
    ensures LogsIn(Sent(p)) <==> p.LoginPacket?
    ensures Reply(Sent(p), now) ==
      match p
      case LoginPacket(_) => LOGIN_ACK
      case TimeSyncPacket => TimeSyncReply(now)
      case GpsPacket(g) => [0x78, 0x78, 0x00, MsgGPS] + ClockBytes(g.now) + [0x0D, 0x0A]
      case StatusPacket => STATUS
  {}

  /** End to end: however the simulator's packets are cut into reads, and whatever the backends
      answer, the gateway writes exactly the expected replies. */
  lemma SimulatorReplies(ps: seq<Packet>, chunks: seq<seq<byte>>, world: World)
    requires forall i :: 0 <= i < |ps| ==> Sendable(ps[i])
    requires Concat(chunks) == Raws(AllSent(ps))
    ensures Writes(Run([], Feed([], chunks).frames, world, 0)) == Expected(ps, false, Clock(world), 0)
  {
    hide Build, Sendable, Expected, Extract, Drain;
    SimulatorStream(ps, chunks);
    RunWrites([], AllSent(ps), world, 0);
    AcksOfSimulator(ps, false, Clock(world), 0);
  }
}
