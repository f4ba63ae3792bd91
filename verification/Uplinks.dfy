/** What one connection asks of the outside for the frames it receives: every registration, check,
    connect, publish and started goroutine, in order (internal/server/server.go, handleFrame). */
module Uplinks {
  import opened Bytes
  import opened Types
  import opened Framing
  import opened Replies
  import opened Handler
  import opened Gps
  import opened WireFormat
  import Login
  import W = WifiLbs

  // ----- what is due -----

  predicate Logs(f: Frame) { f.proto == 0x01 && |f.body| >= 8 }

  function IdentityAfter(imei: Imei, f: Frame): Imei {
    if Logs(f) && Login.Parse(f.body).Imei? then Login.Parse(f.body).digits else imei
  }

  /** Data to forward: a whole fix, a battery percentage, or a printable ICCID. */
  predicate Carries(f: Frame, e: Env) {
    || (CarriesFix(f.proto) && |f.body| >= 18)
    || (f.proto == 0x13 && |f.body| >= 1 && f.body[0] <= 100)
    || (f.proto == 0xB3 && e.textOk)
  }

  /** The registry approves, and the session counts as connected or a connect succeeds. */
  predicate Cleared(e: Env) { e.allowed && (e.flagged || e.connectOk) }

  /** The calls due for one frame. */
  function Due(imei: Imei, f: Frame, e: Env): seq<Event> {
    if Logs(f) then [Register(IdentityAfter(imei, f)), GoConnect(IdentityAfter(imei, f))]
    else if imei == [] then []
    else if Carries(f, e) then
      [Checked(imei, e.allowed)]
      + (if e.allowed && !e.flagged then [Connect(imei, e.connectOk)] else [])
      + (if Cleared(e) then [Publish(imei)] else [])
    else if CarriesWifi(f.proto) && |f.body| >= 6 && e.geo then [GoLocate(imei)]
    else []
  }

  function AllDue(imei: Imei, frames: seq<Frame>, world: World, n: nat): seq<Event>
    decreases |frames|
  {
    if frames == [] then [] else
      Due(imei, frames[0], world(n)) + AllDue(IdentityAfter(imei, frames[0]), frames[1..], world, n + 1)
  }

  // ----- what is done -----

  /** The events other than writes. */
  function Calls(events: seq<Event>): seq<Event> {
    if events == [] then [] else (if events[0].Write? then [] else [events[0]]) + Calls(events[1..])
  }

  lemma {:induction false} CallsConcat(a: seq<Event>, b: seq<Event>)
    ensures Calls(a + b) == Calls(a) + Calls(b)
    decreases |a|
  {
    if a == [] {
      assert a + b == b;
    } else {
      assert (a + b)[1..] == a[1..] + b;
      CallsConcat(a[1..], b);
    }
  }

  lemma {:induction false} OnlyCalls(a: seq<Event>)
    requires forall i :: 0 <= i < |a| ==> !a[i].Write?
    ensures Calls(a) == a
    decreases |a|
  {
    if a != [] {
      OnlyCalls(a[1..]);
      assert a == [a[0]] + a[1..];
    }
  }

  /** Calls followed by a reply. */
  lemma ThenReply(a: seq<Event>, b: seq<byte>)
    requires forall i :: 0 <= i < |a| ==> !a[i].Write?
    ensures Calls(a + [Write(b)]) == a
  {
    CallsConcat(a, [Write(b)]);
    OnlyCalls(a);
    assert [Write(b)][1..] == [] && Calls([Write(b)]) == [];
  }

  lemma LoginCalls(id: Imei)
    ensures Calls([Register(id), Write(LOGIN_ACK), GoConnect(id)]) == [Register(id), GoConnect(id)]
  {
    CallsConcat([Register(id)] + [Write(LOGIN_ACK)], [GoConnect(id)]);
    ThenReply([Register(id)], LOGIN_ACK);
    OnlyCalls([GoConnect(id)]);
    assert [Register(id), Write(LOGIN_ACK), GoConnect(id)] == [Register(id)] + [Write(LOGIN_ACK)] + [GoConnect(id)];
  }

  /** The parsers' verdicts, by length and first byte. */
  lemma Verdicts(body: seq<byte>)
    ensures Login.Parse(body).Imei? <==> |body| >= 8
    ensures ParseGPS(body).Fix? <==> |body| >= 18
    ensures W.Parse(body).Parsed? <==> |body| >= 6
    ensures ParseStatus(body).Ok? <==> |body| >= 1
    ensures |body| >= 1 ==> (ParseStatus(body).status.batteryPercent >= 0 <==> body[0] <= 100)
  {}

  lemma PublishDue(imei: Imei, e: Env)
    ensures PublishEvents(imei, e) ==
      if imei == [] then [] else
        [Checked(imei, e.allowed)]
        + (if e.allowed && !e.flagged then [Connect(imei, e.connectOk)] else [])
        + (if Cleared(e) then [Publish(imei)] else [])
    ensures forall i :: 0 <= i < |PublishEvents(imei, e)| ==> !PublishEvents(imei, e)[i].Write?
  {}

  lemma LoginDone(imei: Imei, f: Frame, e: Env)
    requires f.proto == 0x01
    ensures Calls(HandleEvents(imei, f, e)) == Due(imei, f, e)
  {
    hide Login.Parse, Calls;
    Verdicts(f.body);
    if |f.body| >= 8 {
      LoginCalls(Login.Parse(f.body).digits);
    } else {
      ThenReply([], LOGIN_ACK);
      assert [] + [Write(LOGIN_ACK)] == HandleEvents(imei, f, e);
    }
  }

  lemma FixDone(imei: Imei, f: Frame, e: Env)
    requires CarriesFix(f.proto)
    ensures Calls(HandleEvents(imei, f, e)) == Due(imei, f, e)
  {
    hide ParseGPS, PublishEvents, DatetimeAck, Calls;
    Verdicts(f.body);
    PublishDue(imei, e);
    if imei == [] {
      OnlyCalls([]);
    } else {
      ThenReply(if |f.body| >= 18 then PublishEvents(imei, e) else [], DatetimeAck(f.proto, DatetimeFromBody(f.body)));
    }
  }

  lemma StatusDone(imei: Imei, f: Frame, e: Env)
    requires f.proto == 0x13
    ensures Calls(HandleEvents(imei, f, e)) == Due(imei, f, e)
  {
    hide ParseStatus, PublishEvents, StatusEcho, Calls;
    Verdicts(f.body);
    PublishDue(imei, e);
    ThenReply(if |f.body| >= 1 && f.body[0] <= 100 then PublishEvents(imei, e) else [], StatusEcho(f.raw));
  }

  lemma ReportDone(imei: Imei, f: Frame, e: Env)
    requires CarriesWifi(f.proto)
    ensures Calls(HandleEvents(imei, f, e)) == Due(imei, f, e)
  {
    hide W.Parse, DatetimeAck, Calls;
    Verdicts(f.body);
    ThenReply(if |f.body| >= 6 && imei != [] && e.geo then [GoLocate(imei)] else [],
              DatetimeAck(f.proto, DatetimeFromBody(f.body)));
  }

  lemma OtherDone(imei: Imei, f: Frame, e: Env)
    requires f.proto != 0x01 && f.proto != 0x13 && !CarriesFix(f.proto) && !CarriesWifi(f.proto)
    ensures Calls(HandleEvents(imei, f, e)) == Due(imei, f, e)
  {
    hide PublishEvents, TimeSyncReply, Calls;
    PublishDue(imei, e);
    OnlyCalls([]);
    if f.proto == 0xB3 {
      if e.textOk { OnlyCalls(PublishEvents(imei, e)); }
    } else if f.proto == 0x30 {
      ThenReply([], TimeSyncReply(e.now));
      assert HandleEvents(imei, f, e) == [] + [Write(TimeSyncReply(e.now))];
    } else if f.proto == 0x57 {
      ThenReply([], DEFAULT_SETTINGS);
      assert HandleEvents(imei, f, e) == [] + [Write(DEFAULT_SETTINGS)];
    }
  }

  lemma HandleCalls(imei: Imei, f: Frame, e: Env)
    ensures Calls(HandleEvents(imei, f, e)) == Due(imei, f, e)
    ensures NextImei(imei, f) == IdentityAfter(imei, f)
  {
    hide HandleEvents, Due, Calls, Login.Parse;
    Verdicts(f.body);
    if f.proto == 0x01 {
      LoginDone(imei, f, e);
    } else if CarriesFix(f.proto) {
      FixDone(imei, f, e);
    } else if f.proto == 0x13 {
      StatusDone(imei, f, e);
    } else if CarriesWifi(f.proto) {
      ReportDone(imei, f, e);
    } else {
      OtherDone(imei, f, e);
    }
  }

  /** Over every run: what a connection asks of the outside is, in order, exactly what is due for its
      frames. */
  lemma {:induction false} RunCalls(imei: Imei, frames: seq<Frame>, world: World, n: nat)
    ensures Calls(Run(imei, frames, world, n)) == AllDue(imei, frames, world, n)
    decreases |frames|
  {
    hide HandleEvents, NextImei, Due, IdentityAfter;
    if frames != [] {
      HandleCalls(imei, frames[0], world(n));
      RunCalls(IdentityAfter(imei, frames[0]), frames[1..], world, n + 1);
      CallsConcat(HandleEvents(imei, frames[0], world(n)), Run(NextImei(imei, frames[0]), frames[1..], world, n + 1));
    }
  }

  // ----- what follows for publishes -----

  /** The identities that telemetry is published for. */
  function Published(events: seq<Event>): seq<Imei> {
    if events == [] then [] else (if events[0].Publish? then [events[0].imei] else []) + Published(events[1..])
  }

  /** One publish for each frame with data, under the identity in force, that is cleared. */
  function DuePublishes(imei: Imei, frames: seq<Frame>, world: World, n: nat): seq<Imei>
    decreases |frames|
  {
    if frames == [] then [] else
      (if imei != [] && !Logs(frames[0]) && Carries(frames[0], world(n)) && Cleared(world(n)) then [imei] else [])
      + DuePublishes(IdentityAfter(imei, frames[0]), frames[1..], world, n + 1)
  }

  lemma {:induction false} PublishedConcat(a: seq<Event>, b: seq<Event>)
    ensures Published(a + b) == Published(a) + Published(b)
    decreases |a|
  {
    if a == [] {
      assert a + b == b;
    } else {
      assert (a + b)[1..] == a[1..] + b;
      PublishedConcat(a[1..], b);
    }
  }

  lemma {:induction false} PublishedAreCalls(events: seq<Event>)
    ensures Published(Calls(events)) == Published(events)
    decreases |events|
  {
    if events != [] {
      PublishedAreCalls(events[1..]);
      PublishedConcat(if events[0].Write? then [] else [events[0]], Calls(events[1..]));
      assert Published([events[0]]) == if events[0].Publish? then [events[0].imei] else [];
    }
  }

  lemma PublishedOne(e: Event)
    ensures Published([e]) == if e.Publish? then [e.imei] else []
  {}

  lemma PublishedOfDue(imei: Imei, f: Frame, e: Env)
    ensures Published(Due(imei, f, e)) ==
      if imei != [] && !Logs(f) && Carries(f, e) && Cleared(e) then [imei] else []
  {
    hide Login.Parse;
    var id := IdentityAfter(imei, f);
    PublishedOne(Register(id));
    PublishedOne(GoConnect(id));
    PublishedConcat([Register(id)], [GoConnect(id)]);
    assert [Register(id)] + [GoConnect(id)] == [Register(id), GoConnect(id)];
    PublishedOne(GoLocate(imei));
    PublishedOne(Publish(imei));
    PublishedOne(Checked(imei, e.allowed));
    PublishedOne(Connect(imei, e.connectOk));
    var connect := if e.allowed && !e.flagged then [Connect(imei, e.connectOk)] else [];
    var publish := if Cleared(e) then [Publish(imei)] else [];
    PublishedConcat([Checked(imei, e.allowed)] + connect, publish);
    PublishedConcat([Checked(imei, e.allowed)], connect);
    hide Published;
  }

  /** Over every run, the publishes are exactly those, in order. */
  lemma RunPublishes(imei: Imei, frames: seq<Frame>, world: World, n: nat)
    ensures Published(Run(imei, frames, world, n)) == DuePublishes(imei, frames, world, n)
  {
    PublishedAreCalls(Run(imei, frames, world, n));
    RunCalls(imei, frames, world, n);
    PublishedOfAllDue(imei, frames, world, n);
  }

  lemma {:induction false} PublishedOfAllDue(imei: Imei, frames: seq<Frame>, world: World, n: nat)
    ensures Published(AllDue(imei, frames, world, n)) == DuePublishes(imei, frames, world, n)
    decreases |frames|
  {
    hide Due, IdentityAfter, Logs, Carries, Cleared;
    if frames != [] {
      PublishedOfDue(imei, frames[0], world(n));
      PublishedOfAllDue(IdentityAfter(imei, frames[0]), frames[1..], world, n + 1);
      PublishedConcat(Due(imei, frames[0], world(n)), AllDue(IdentityAfter(imei, frames[0]), frames[1..], world, n + 1));
    }
  }

  // ----- order -----

  /** A publish stands right behind its approval, or behind a successful connect right behind that; a
      registration is answered with the login reply and followed by the goroutine that connects. */
  predicate Orderly(events: seq<Event>) {
    forall i :: 0 <= i < |events| ==>
      && (events[i].Publish? ==> Approved(events, i))
      && (events[i].Register? ==> Answered(events, i))
  }

  predicate Approved(events: seq<Event>, i: nat)
    requires i < |events| && events[i].Publish?
  {
    var k := events[i].imei;
    (i >= 1 && events[i - 1] == Checked(k, true))
    || (i >= 2 && events[i - 1] == Connect(k, true) && events[i - 2] == Checked(k, true))
  }

  predicate Answered(events: seq<Event>, i: nat)
    requires i < |events| && events[i].Register?
  {
    && i + 2 < |events| && events[i + 1] == Write([0x78, 0x78, 0x01, 0x01, 0x0D, 0x0A])
    && events[i + 2] == GoConnect(events[i].imei)
  }

  lemma OrderlyConcat(a: seq<Event>, b: seq<Event>)
    requires Orderly(a) && Orderly(b)
    ensures Orderly(a + b)
  {
    var c := a + b;
    forall i | 0 <= i < |c|
      ensures (c[i].Publish? ==> Approved(c, i)) && (c[i].Register? ==> Answered(c, i))
    {
      if i < |a| {
        assert c[i] == a[i];
        assert a[i].Publish? ==> Approved(a, i);
        assert a[i].Register? ==> Answered(a, i);
      } else {
        var j := i - |a|;
        assert c[i] == b[j];
        assert b[j].Publish? ==> Approved(b, j);
        assert b[j].Register? ==> Answered(b, j);
      }
    }
  }

  lemma HandleOrderly(imei: Imei, f: Frame, e: Env)
    ensures Orderly(HandleEvents(imei, f, e))
  {
    hide Login.Parse, ParseGPS, W.Parse, ParseStatus, DatetimeAck, TimeSyncReply, StatusEcho;
  }

  lemma {:induction false} RunOrderly(imei: Imei, frames: seq<Frame>, world: World, n: nat)
    ensures Orderly(Run(imei, frames, world, n))
    decreases |frames|
  {
    hide HandleEvents, NextImei, Orderly;
    if frames == [] {
      NothingIsOrderly();
    } else {
      HandleOrderly(imei, frames[0], world(n));
      RunOrderly(NextImei(imei, frames[0]), frames[1..], world, n + 1);
      OrderlyConcat(HandleEvents(imei, frames[0], world(n)), Run(NextImei(imei, frames[0]), frames[1..], world, n + 1));
    }
  }

  lemma NothingIsOrderly()
    ensures Orderly([])
  {}
}
