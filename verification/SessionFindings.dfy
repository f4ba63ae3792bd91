/** Runs that the code allows and that bound what can be claimed (internal/server/server.go). */
module SessionFindings {
  import opened Types
  import opened SessionMachine

  /** Cleanup, from the read error to the closed connection. */
  function Cleanup(c: nat): seq<Step> { [ReadError(c)] + ([Remove(c)] + ([HangUp(c)] + ([Close(c)] + []))) }

  /** A connection that logs in as a and then as b leaves a's entry behind: the table still
      names a connection whose handler has finished. */
  lemma SecondIdentityLeavesEntry(a: Imei, b: Imei)
    requires a != b
    ensures var s := Run(INIT, [Accept] + ([LogIn(0, a)] + ([LogIn(0, b)] + Cleanup(0))));
      a in s.table && s.table[a] < |s.sessions| && s.sessions[s.table[a]].conn == 0
      && |s.conns| == 1 && s.conns[0].phase == Done
  {
    var s1 := Apply(INIT, Accept);
    var s2 := Apply(s1, LogIn(0, a));
    var s3 := Apply(s2, LogIn(0, b));
    TwoLogins(a, b);
    RunStep(INIT, Accept, [LogIn(0, a)] + ([LogIn(0, b)] + Cleanup(0)));
    RunStep(s1, LogIn(0, a), [LogIn(0, b)] + Cleanup(0));
    RunStep(s2, LogIn(0, b), Cleanup(0));
    CleanedUp(s3, a, b);
  }

  lemma TwoLogins(a: Imei, b: Imei)
    requires a != b
    ensures var s := Apply(Apply(Apply(INIT, Accept), LogIn(0, a)), LogIn(0, b));
      && s.conns == [Conn(Reading, true, Some(Login(b, 1)))]
      && s.sessions == [Session(a, 0, false), Session(b, 0, false)]
      && s.table == map[a := 0, b := 1]
  {}

  lemma CleanedUp(s: State, a: Imei, b: Imei)
    requires a != b && s.conns == [Conn(Reading, true, Some(Login(b, 1)))]
    requires s.sessions == [Session(a, 0, false), Session(b, 0, false)] && s.table == map[a := 0, b := 1]
    ensures var u := Run(s, Cleanup(0));
      u.table == map[a := 0] && u.sessions == s.sessions && |u.conns| == 1 && u.conns[0].phase == Done
  {}

  /** A login whose goroutine t gets the registry's and ThingsBoard's consent. */
  function Joined(c: nat, t: nat, k: Imei): seq<Step> {
    [Accept] + ([LogIn(c, k)] + ([Advance(t, true)] + ([Advance(t, true)] + ([Advance(t, true)] + []))))
  }

  /** The five steps of a login and its goroutine, one at a time. */
  lemma JoinSteps(s: State, c: nat, t: nat, k: Imei)
    ensures Run(s, Joined(c, t, k)) == Apply(Apply(Apply(Apply(Apply(s, Accept), LogIn(c, k)),
                                             Advance(t, true)), Advance(t, true)), Advance(t, true))
  {
    hide Apply;
    var s1 := Apply(s, Accept);
    var s2 := Apply(s1, LogIn(c, k));
    var s3 := Apply(s2, Advance(t, true));
    var s4 := Apply(s3, Advance(t, true));
    RunStep(s, Accept, [LogIn(c, k)] + ([Advance(t, true)] + ([Advance(t, true)] + ([Advance(t, true)] + []))));
    RunStep(s1, LogIn(c, k), [Advance(t, true)] + ([Advance(t, true)] + ([Advance(t, true)] + [])));
    RunStep(s2, Advance(t, true), [Advance(t, true)] + ([Advance(t, true)] + []));
    RunStep(s3, Advance(t, true), [Advance(t, true)] + []);
    RunStep(s4, Advance(t, true), []);
  }

  function OneJoined(k: Imei): State {
    State([Conn(Reading, true, Some(Login(k, 0)))], [Session(k, 0, true)], map[k := 0], [Finished],
          [Allowed(0, k), ConnectOk(0, k)])
  }

  lemma FirstJoins(k: Imei)
    ensures Run(INIT, Joined(0, 0, k)) == OneJoined(k)
  {
    JoinSteps(INIT, 0, 0, k);
    var s2 := Apply(Apply(INIT, Accept), LogIn(0, k));
    assert s2 == State([Conn(Reading, true, Some(Login(k, 0)))], [Session(k, 0, false)], map[k := 0],
                       [MaybeCheck(k, 0)], []);
    var s3 := Apply(s2, Advance(0, true));
    assert s3 == s2.(tasks := [MaybeDial(k, 0)], trace := [Allowed(0, k)]);
    var s4 := Apply(s3, Advance(0, true));
    assert s4 == s2.(tasks := [MaybeMark(k, 0)], trace := [Allowed(0, k), ConnectOk(0, k)]);
    assert Apply(s4, Advance(0, true)) == OneJoined(k);
  }

  lemma SecondLogsIn(k: Imei)
    ensures Apply(Apply(OneJoined(k), Accept), LogIn(1, k)) ==
      State([Conn(Reading, false, Some(Login(k, 0))), Conn(Reading, true, Some(Login(k, 1)))],
            [Session(k, 0, true), Session(k, 1, false)], map[k := 1], [Finished, MaybeCheck(k, 1)],
            [Allowed(0, k), ConnectOk(0, k)])
  {}

  lemma SecondJoins(k: Imei)
    ensures Run(OneJoined(k), Joined(1, 1, k)) == TwoJoined(k)
  {
    JoinSteps(OneJoined(k), 1, 1, k);
    SecondLogsIn(k);
    var s2 := Apply(Apply(OneJoined(k), Accept), LogIn(1, k));
    var s3 := Apply(s2, Advance(1, true));
    assert s3 == s2.(tasks := [Finished, MaybeDial(k, 1)], trace := [Allowed(0, k), ConnectOk(0, k), Allowed(1, k)]);
    var s4 := Apply(s3, Advance(1, true));
    assert s4 == s2.(tasks := [Finished, MaybeMark(k, 1)], trace := TwoJoined(k).trace);
    assert Apply(s4, Advance(1, true)) == TwoJoined(k);
  }

  function HungUpSteps(c: nat): seq<Step> { [ReadError(c)] + ([Remove(c)] + ([HangUp(c)] + [])) }

  function PublishSteps(c: nat, t: nat): seq<Step> {
    [StartPublish(c)] + ([Advance(t, true)] + ([Advance(t, true)] + ([Advance(t, true)] + ([Advance(t, true)] + []))))
  }

  function TwoJoined(k: Imei): State {
    State([Conn(Reading, false, Some(Login(k, 0))), Conn(Reading, true, Some(Login(k, 1)))],
          [Session(k, 0, true), Session(k, 1, true)], map[k := 1], [Finished, Finished],
          [Allowed(0, k), ConnectOk(0, k), Allowed(1, k), ConnectOk(1, k)])
  }

  function AfterHangUp(k: Imei): State {
    TwoJoined(k).(conns := [Conn(HungUp, false, Some(Login(k, 0))), Conn(Reading, true, Some(Login(k, 1)))],
                  trace := TwoJoined(k).trace + [Disconnect(0, k)])
  }

  lemma JoinTwice(k: Imei)
    ensures Run(INIT, Joined(0, 0, k) + Joined(1, 1, k)) == TwoJoined(k)
  {
    RunConcat(INIT, Joined(0, 0, k), Joined(1, 1, k));
    FirstJoins(k);
    SecondJoins(k);
  }

  lemma FirstHangsUp(k: Imei)
    ensures Run(TwoJoined(k), HungUpSteps(0)) == AfterHangUp(k)
  {}

  lemma SecondPublishes(k: Imei)
    ensures Run(AfterHangUp(k), PublishSteps(1, 2)).trace == AfterHangUp(k).trace + [Allowed(2, k), Publish(2, k)]
    ensures Run(AfterHangUp(k), PublishSteps(1, 2)).conns == AfterHangUp(k).conns
    ensures Run(AfterHangUp(k), PublishSteps(1, 2)).sessions == AfterHangUp(k).sessions
  {
    var s := AfterHangUp(k);
    var s1 := Apply(s, StartPublish(1));
    assert s1.tasks[2] == Check(k);
    var s2 := Apply(s1, Advance(2, true));
    var s3 := Apply(s2, Advance(2, true));
    assert s3.tasks[2] == Flag(k, Some(1));
    var s4 := Apply(s3, Advance(2, true));
    var s5 := Apply(s4, Advance(2, true));
    assert s5.trace == s.trace + [Allowed(2, k), Publish(2, k)];
    RunStep(s, StartPublish(1),
            [Advance(2, true)] + ([Advance(2, true)] + ([Advance(2, true)] + ([Advance(2, true)] + []))));
    RunStep(s1, Advance(2, true), [Advance(2, true)] + ([Advance(2, true)] + ([Advance(2, true)] + [])));
    RunStep(s2, Advance(2, true), [Advance(2, true)] + ([Advance(2, true)] + []));
    RunStep(s3, Advance(2, true), [Advance(2, true)] + []);
    RunStep(s4, Advance(2, true), []);
  }

  /** When a tracker reconnects, the late cleanup of its replaced connection announces it as gone
      after the new connection announced it as present. The new session still counts as connected,
      so its telemetry is published without announcing the device again. */
  lemma PublishAfterDisconnect(k: Imei)
    ensures var s := Run(INIT, ((Joined(0, 0, k) + Joined(1, 1, k)) + HungUpSteps(0)) + PublishSteps(1, 2));
      && s.trace == [Allowed(0, k), ConnectOk(0, k), Allowed(1, k), ConnectOk(1, k),
                     Disconnect(0, k), Allowed(2, k), Publish(2, k)]
      && Live(s, 1) && |s.sessions| == 2 && s.sessions[1].tbConnected
  {
    JoinTwice(k);
    FirstHangsUp(k);
    SecondPublishes(k);
    RunConcat(INIT, Joined(0, 0, k) + Joined(1, 1, k), HungUpSteps(0));
    RunConcat(INIT, (Joined(0, 0, k) + Joined(1, 1, k)) + HungUpSteps(0), PublishSteps(1, 2));
  }

  /** A goroutine reads the flag, the connection is cleaned up, the goroutine publishes. */
  function LateSteps(): seq<Step> {
    [StartPublish(0)] + ([Advance(1, true)] + ([Advance(1, true)] + ([Advance(1, true)]
    + (HungUpSteps(0) + [Advance(1, true)]))))
  }

  function ReadyToSend(k: Imei): State {
    OneJoined(k).(tasks := [Finished, Send(k)], trace := [Allowed(0, k), ConnectOk(0, k), Allowed(1, k)])
  }

  lemma GetsReady(k: Imei)
    ensures Apply(Apply(Apply(Apply(OneJoined(k), StartPublish(0)), Advance(1, true)), Advance(1, true)), Advance(1, true))
         == ReadyToSend(k)
  {
    var s1 := Apply(OneJoined(k), StartPublish(0));
    assert s1.tasks == [Finished, Check(k)];
    var s2 := Apply(s1, Advance(1, true));
    assert s2.tasks == [Finished, Lookup(k)];
    var s3 := Apply(s2, Advance(1, true));
    assert s3.tasks == [Finished, Flag(k, Some(0))];
  }

  lemma SendsLate(k: Imei)
    ensures Run(ReadyToSend(k), HungUpSteps(0) + [Advance(1, true)]).trace ==
      [Allowed(0, k), ConnectOk(0, k), Allowed(1, k), Disconnect(0, k), Publish(1, k)]
  {
    var s := ReadyToSend(k);
    var s1 := Apply(s, ReadError(0));
    var s2 := Apply(s1, Remove(0));
    var s3 := Apply(s2, HangUp(0));
    assert s3.tasks == [Finished, Send(k)] && s3.trace == s.trace + [Disconnect(0, k)];
    RunSnoc(s, HungUpSteps(0), Advance(1, true));
    RunStep(s, ReadError(0), [Remove(0)] + ([HangUp(0)] + []));
    RunStep(s1, Remove(0), [HangUp(0)] + []);
    RunStep(s2, HangUp(0), []);
  }

  /** One connection and one identity are no remedy: a goroutine that read the flag before the
      cleanup, as the one resolving a Wi-Fi/LBS report may, publishes after the disconnect. */
  lemma PublishOutlivesConnection(k: Imei)
    ensures var s := Run(INIT, Joined(0, 0, k) + LateSteps());
      s.trace == [Allowed(0, k), ConnectOk(0, k), Allowed(1, k), Disconnect(0, k), Publish(1, k)]
  {
    hide Apply;
    RunConcat(INIT, Joined(0, 0, k), LateSteps());
    FirstJoins(k);
    GetsReady(k);
    SendsLate(k);
    var s := OneJoined(k);
    var s1 := Apply(s, StartPublish(0));
    var s2 := Apply(s1, Advance(1, true));
    var s3 := Apply(s2, Advance(1, true));
    var last := HungUpSteps(0) + [Advance(1, true)];
    RunStep(s, StartPublish(0), [Advance(1, true)] + ([Advance(1, true)] + ([Advance(1, true)] + last)));
    RunStep(s1, Advance(1, true), [Advance(1, true)] + ([Advance(1, true)] + last));
    RunStep(s2, Advance(1, true), [Advance(1, true)] + last);
    RunStep(s3, Advance(1, true), last);
  }
}
