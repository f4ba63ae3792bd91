/** Safety of sessions and of the uplink over every run (internal/server/server.go). */
module SessionTheorems {
  import opened Types
  import opened SessionMachine

  // ----- the uplink trace -----

  ghost predicate Connected(trace: seq<Event>, k: Imei) { exists t: nat :: ConnectOk(t, k) in trace }

  /** What must have happened before an event. */
  ghost predicate Justified(before: seq<Event>, e: Event) {
    match e
    case ConnectOk(t, k) => Allowed(t, k) in before
    case ConnectFailed(t, k) => Allowed(t, k) in before
    case Publish(t, k) => Allowed(t, k) in before && Connected(before, k)
    case Disconnect(_, k) => Connected(before, k)
    case _ => true
  }

  ghost predicate SafeTrace(trace: seq<Event>) {
    forall i :: 0 <= i < |trace| ==> Justified(trace[..i], trace[i])
  }

  ghost predicate FoundFor(s: State, found: Option<nat>, k: Imei) {
    found.Some? ==> found.value < |s.sessions| && s.sessions[found.value].imei == k
  }

  /** What a goroutine's position says about the past. */
  ghost predicate TaskOk(s: State, t: nat)
    requires t < |s.tasks|
  {
    match s.tasks[t]
    case Check(_) => true
    case Lookup(k) => Allowed(t, k) in s.trace
    case Flag(k, found) => Allowed(t, k) in s.trace && FoundFor(s, found, k)
    case Dial(k, found) => Allowed(t, k) in s.trace && FoundFor(s, found, k)
    case Mark(k, found) => Allowed(t, k) in s.trace && FoundFor(s, found, k) && Connected(s.trace, k)
    case Send(k) => Allowed(t, k) in s.trace && Connected(s.trace, k)
    case MaybeCheck(k, id) => FoundFor(s, Some(id), k)
    case MaybeDial(k, id) => FoundFor(s, Some(id), k) && Allowed(t, k) in s.trace
    case MaybeMark(k, id) => FoundFor(s, Some(id), k) && Connected(s.trace, k)
    case Finished => true
  }

  ghost predicate FlagsAreTrue(s: State) {
    forall i :: 0 <= i < |s.sessions| && s.sessions[i].tbConnected ==> Connected(s.trace, s.sessions[i].imei)
  }

  ghost predicate Uplink(s: State) {
    && SafeTrace(s.trace) && FlagsAreTrue(s)
    && forall t :: 0 <= t < |s.tasks| ==> TaskOk(s, t)
  }

  /** Later states remember: the trace is longer, sessions keep their identity. */
  ghost predicate Grows(s: State, u: State) {
    && s.trace <= u.trace && |s.sessions| <= |u.sessions|
    && forall i :: 0 <= i < |s.sessions| ==> u.sessions[i].imei == s.sessions[i].imei
  }

  lemma StillConnected(a: seq<Event>, b: seq<Event>, k: Imei)
    requires a <= b && Connected(a, k)
    ensures Connected(b, k)
  {}

  lemma TaskStillOk(s: State, u: State, t: nat)
    requires Grows(s, u) && t < |s.tasks| && t < |u.tasks| && u.tasks[t] == s.tasks[t] && TaskOk(s, t)
    ensures TaskOk(u, t)
  {}

  lemma SafeWithOneMore(trace: seq<Event>, e: Event)
    requires SafeTrace(trace) && Justified(trace, e)
    ensures SafeTrace(trace + [e])
  {
    var u := trace + [e];
    forall i | 0 <= i < |u| ensures Justified(u[..i], u[i]) {
      if i < |trace| {
        assert u[..i] == trace[..i];
      } else {
        assert u[..i] == trace;
      }
    }
  }

  /** A step that adds at most one justified event, raises only justified flags and moves at most
      one goroutine to a position it has earned keeps the uplink invariant. */
  lemma UplinkStep(s: State, u: State, moved: int, events: seq<Event>)
    requires Uplink(s) && Grows(s, u) && u.trace == s.trace + events && |events| <= 1
    requires |events| == 1 ==> Justified(s.trace, events[0])
    requires forall i :: 0 <= i < |u.sessions| && u.sessions[i].tbConnected ==>
      (i < |s.sessions| && s.sessions[i].tbConnected) || Connected(u.trace, u.sessions[i].imei)
    requires forall t :: 0 <= t < |u.tasks| && t != moved ==> t < |s.tasks| && u.tasks[t] == s.tasks[t]
    requires 0 <= moved < |u.tasks| ==> TaskOk(u, moved)
    ensures Uplink(u)
  {
    if |events| == 1 {
      assert events == [events[0]];
      SafeWithOneMore(s.trace, events[0]);
    } else {
      assert u.trace == s.trace;
    }
    forall t | 0 <= t < |u.tasks| ensures TaskOk(u, t) {
      if t != moved {
        var task := u.tasks[t];
        TaskStillOk(s, u, t);
      }
    }
    forall i | 0 <= i < |u.sessions| && u.sessions[i].tbConnected ensures Connected(u.trace, u.sessions[i].imei) {
      if i < |s.sessions| && s.sessions[i].tbConnected {
        StillConnected(s.trace, u.trace, s.sessions[i].imei);
      }
    }
  }

  lemma PublishingKeepsUplink(s: State, t: nat, answer: bool)
    requires t < |s.tasks| && References(s) && Uplink(s)
    requires s.tasks[t].Check? || s.tasks[t].Lookup? || s.tasks[t].Flag? || s.tasks[t].Send?
    ensures Uplink(DoAdvance(s, t, answer))
  {
    var u := DoAdvance(s, t, answer);
    assert TaskOk(s, t);
    if s.tasks[t].Check? { assert Allowed(t, s.tasks[t].imei) in [Allowed(t, s.tasks[t].imei)]; }
    UplinkStep(s, u, t, u.trace[|s.trace|..]);
  }

  lemma DialingKeepsUplink(s: State, t: nat, answer: bool)
    requires t < |s.tasks| && References(s) && Uplink(s)
    requires s.tasks[t].Dial? || s.tasks[t].MaybeCheck? || s.tasks[t].MaybeDial?
    ensures Uplink(DoAdvance(s, t, answer))
  {
    var u, k := DoAdvance(s, t, answer), s.tasks[t].imei;
    assert TaskOk(s, t);
    assert Allowed(t, k) in [Allowed(t, k)];
    if answer && !s.tasks[t].MaybeCheck? { assert ConnectOk(t, k) in u.trace; }
    UplinkStep(s, u, t, u.trace[|s.trace|..]);
  }

  lemma MarkingKeepsUplink(s: State, t: nat, answer: bool)
    requires t < |s.tasks| && References(s) && Uplink(s)
    requires s.tasks[t].Mark? || s.tasks[t].MaybeMark?
    ensures Uplink(DoAdvance(s, t, answer))
  {
    assert TaskOk(s, t);
    UplinkStep(s, DoAdvance(s, t, answer), t, []);
  }

  lemma HangUpKeepsUplink(s: State, c: nat)
    requires c < |s.conns| && References(s) && Uplink(s)
    ensures Uplink(DoHangUp(s, c))
  {
    var u := DoHangUp(s, c);
    if s.conns[c].login.Some? { assert OwnSession(s, c); }
    UplinkStep(s, u, -1, u.trace[|s.trace|..]);
  }

  lemma StepKeepsUplink(s: State, step: Step)
    requires References(s) && Uplink(s)
    ensures Uplink(Apply(s, step))
  {
    hide References, Uplink, DoHangUp, DoRemove, TaskOk;
    var u := Apply(s, step);
    match step
    case HangUp(c) =>
      if c < |s.conns| && s.conns[c].phase == Removed { HangUpKeepsUplink(s, c); }
    case Advance(t, answer) =>
      if t < |s.tasks| {
        match s.tasks[t]
        case Finished =>
        case Mark(_, _) => MarkingKeepsUplink(s, t, answer);
        case MaybeMark(_, _) => MarkingKeepsUplink(s, t, answer);
        case Dial(_, _) => DialingKeepsUplink(s, t, answer);
        case MaybeCheck(_, _) => DialingKeepsUplink(s, t, answer);
        case MaybeDial(_, _) => DialingKeepsUplink(s, t, answer);
        case _ => PublishingKeepsUplink(s, t, answer);
      }
    case LogIn(c, k) =>
      if c < |s.conns| && s.conns[c].phase == Reading { LogInKeepsUplink(s, c, k); }
    case StartPublish(c) =>
      NewTaskOk(u, |s.tasks|);
      UplinkStep(s, u, |s.tasks|, []);
    case Remove(c) =>
      RemoveKeepsRest(s, c);
      UplinkStep(s, u, -1, []);
    case _ =>
      UplinkStep(s, u, -1, []);
  }

  lemma RemoveKeepsRest(s: State, c: nat)
    ensures c < |s.conns| ==> var u := DoRemove(s, c);
      u.sessions == s.sessions && u.tasks == s.tasks && u.trace == s.trace
  {}

  lemma NewTaskOk(u: State, t: nat)
    ensures t < |u.tasks| && u.tasks[t].Check? ==> TaskOk(u, t)
  {}

  lemma LogInKeepsUplink(s: State, c: nat, k: Imei)
    requires c < |s.conns| && Uplink(s)
    ensures Uplink(DoLogIn(s, c, k))
  {
    var u := DoLogIn(s, c, k);
    assert TaskOk(u, |s.tasks|);
    UplinkStep(s, u, |s.tasks|, []);
  }

  // ----- the table, in closed form -----

  /** The last session registered for an identity, or by a connection; -1 if there is none. */
  function LastFor(sessions: seq<Session>, k: Imei): (r: int)
    ensures -1 <= r < |sessions|
    ensures r != -1 ==> sessions[r].imei == k
    ensures forall i :: r < i < |sessions| ==> sessions[i].imei != k
  {
    if sessions == [] then -1
    else if sessions[|sessions| - 1].imei == k then |sessions| - 1
    else LastFor(sessions[..|sessions| - 1], k)
  }

  function LastBy(sessions: seq<Session>, c: nat): (r: int)
    ensures -1 <= r < |sessions|
    ensures r != -1 ==> sessions[r].conn == c
    ensures forall i :: r < i < |sessions| ==> sessions[i].conn != c
  {
    if sessions == [] then -1
    else if sessions[|sessions| - 1].conn == c then |sessions| - 1
    else LastBy(sessions[..|sessions| - 1], c)
  }

  /** The session was its connection's last, and that connection has removed it. */
  predicate Retired(s: State, id: nat)
    requires id < |s.sessions|
  {
    var c := s.sessions[id].conn;
    c < |s.conns| && PastRemoval(s.conns[c].phase) && LastBy(s.sessions, c) == id
  }

  /** A handler's variables name the last session it registered. */
  ghost predicate LoginsAreLast(s: State) {
    forall c :: 0 <= c < |s.conns| ==>
      var last := LastBy(s.sessions, c);
      s.conns[c].login == if last == -1 then None else Some(Login(s.sessions[last].imei, last))
  }

  /** The table maps each identity to the last session registered for it, unless that is retired. */
  ghost predicate TableIsLastLogins(s: State) {
    forall k: Imei {:trigger LastFor(s.sessions, k)} ::
      var last := LastFor(s.sessions, k);
      && (k in s.table <==> last != -1 && !Retired(s, last))
      && (k in s.table ==> s.table[k] == last)
  }

  ghost predicate Bookkeeping(s: State) { References(s) && LoginsAreLast(s) && TableIsLastLogins(s) }

  /** A session's connection and identity, which never change. */
  predicate SameSessions(a: seq<Session>, b: seq<Session>) {
    |a| == |b| && forall i :: 0 <= i < |a| ==> a[i].imei == b[i].imei && a[i].conn == b[i].conn
  }

  lemma {:induction false} SameLasts(a: seq<Session>, b: seq<Session>, k: Imei, c: nat)
    requires SameSessions(a, b)
    ensures LastFor(a, k) == LastFor(b, k) && LastBy(a, c) == LastBy(b, c)
    decreases |a|
  {}

  lemma LastsOfAppend(sessions: seq<Session>, x: Session, k: Imei, c: nat)
    ensures LastFor(sessions + [x], k) == if x.imei == k then |sessions| else LastFor(sessions, k)
    ensures LastBy(sessions + [x], c) == if x.conn == c then |sessions| else LastBy(sessions, c)
  {}

  lemma LogInKeepsLogins(s: State, c: nat, k: Imei)
    requires c < |s.conns| && s.conns[c].phase == Reading && Bookkeeping(s)
    ensures LoginsAreLast(DoLogIn(s, c, k))
  {}

  /** A login retires nothing and revives nothing. */
  lemma LogInSameRetirement(s: State, c: nat, k: Imei, id: nat)
    requires c < |s.conns| && s.conns[c].phase == Reading && id < |s.sessions|
    ensures Retired(DoLogIn(s, c, k), id) <==> Retired(s, id)
  {}

  lemma LogInKeepsTable(s: State, c: nat, k: Imei)
    requires c < |s.conns| && s.conns[c].phase == Reading && Bookkeeping(s)
    ensures TableIsLastLogins(DoLogIn(s, c, k))
  {
    hide References, LoginsAreLast, Retired;
    var u := DoLogIn(s, c, k);
    forall j: Imei
      ensures var last := LastFor(u.sessions, j);
        && (j in u.table <==> last != -1 && !Retired(u, last)) && (j in u.table ==> u.table[j] == last)
    {
      LastsOfAppend(s.sessions, Session(k, c, false), j, c);
      var last := LastFor(s.sessions, j);
      if last != -1 { LogInSameRetirement(s, c, k, last); }
      NotRetiredAtFirst(s, c, k);
    }
  }

  lemma NotRetiredAtFirst(s: State, c: nat, k: Imei)
    requires c < |s.conns| && s.conns[c].phase == Reading
    ensures !Retired(DoLogIn(s, c, k), |s.sessions|)
  {}

  lemma RemoveKeepsTable(s: State, c: nat)
    requires c < |s.conns| && s.conns[c].phase == CleaningUp && Bookkeeping(s)
    ensures LoginsAreLast(DoRemove(s, c)) && TableIsLastLogins(DoRemove(s, c))
  {
    var u := DoRemove(s, c);
    assert u.sessions == s.sessions;
    forall j: Imei
      ensures var last := LastFor(u.sessions, j);
        && (j in u.table <==> last != -1 && !Retired(u, last)) && (j in u.table ==> u.table[j] == last)
    {
      var last := LastFor(s.sessions, j);
      if last != -1 {
        assert s.sessions[last].conn != c ==> Retired(u, last) == Retired(s, last);
      }
    }
  }

  lemma OtherStepsKeepTable(s: State, step: Step)
    requires !step.LogIn? && !step.Remove? && Bookkeeping(s)
    ensures LoginsAreLast(Apply(s, step)) && TableIsLastLogins(Apply(s, step))
  {
    var u := Apply(s, step);
    OtherStepsSameRetirement(s, step);
    hide References, Apply;
    SameRetirementKeepsTable(s, u);
  }

  lemma SameRetirementKeepsTable(s: State, u: State)
    requires SameRetirement(s, u) && LoginsAreLast(s) && TableIsLastLogins(s)
    requires forall i :: 0 <= i < |s.sessions| ==> s.sessions[i].conn < |s.conns|
    requires forall c :: |s.conns| <= c ==> LastBy(s.sessions, c) == -1
    ensures LoginsAreLast(u) && TableIsLastLogins(u)
  {
    forall d | 0 <= d < |u.conns|
      ensures var last := LastBy(u.sessions, d);
        u.conns[d].login == if last == -1 then None else Some(Login(u.sessions[last].imei, last))
    {
      SameLasts(s.sessions, u.sessions, [], d);
    }
    forall j: Imei
      ensures var last := LastFor(u.sessions, j);
        && (j in u.table <==> last != -1 && !Retired(u, last)) && (j in u.table ==> u.table[j] == last)
    {
      SameLasts(s.sessions, u.sessions, j, 0);
      var last := LastFor(s.sessions, j);
      if last != -1 { SameLasts(s.sessions, u.sessions, j, s.sessions[last].conn); }
    }
  }

  predicate SameRetirement(s: State, u: State) {
    && SameSessions(s.sessions, u.sessions) && u.table == s.table && |s.conns| <= |u.conns|
    && (forall c :: 0 <= c < |s.conns| ==>
          u.conns[c].login == s.conns[c].login && PastRemoval(u.conns[c].phase) == PastRemoval(s.conns[c].phase))
    && (forall c :: |s.conns| <= c < |u.conns| ==> u.conns[c].login == None)
  }

  lemma AdvanceSameRetirement(s: State, t: nat, answer: bool)
    requires t < |s.tasks|
    ensures SameRetirement(s, DoAdvance(s, t, answer))
  {}

  lemma OtherStepsSameRetirement(s: State, step: Step)
    requires !step.LogIn? && !step.Remove? && References(s)
    ensures SameRetirement(s, Apply(s, step))
    ensures forall i :: 0 <= i < |s.sessions| ==> s.sessions[i].conn < |s.conns|
    ensures forall c :: |s.conns| <= c ==> LastBy(s.sessions, c) == -1
  {
    if step.Advance? && step.t < |s.tasks| { AdvanceSameRetirement(s, step.t, step.answer); }
    hide DoAdvance;
  }

  // ----- every run -----

  ghost predicate Inv(s: State) { Bookkeeping(s) && LiveAreListed(s) && Uplink(s) }

  lemma StepKeepsInv(s: State, step: Step)
    requires Inv(s)
    ensures Inv(Apply(s, step))
  {
    StepKeepsListing(s, step);
    StepKeepsUplink(s, step);
    hide References, LiveAreListed, Uplink, LoginsAreLast, TableIsLastLogins;
    match step
    case LogIn(c, k) =>
      if c < |s.conns| && s.conns[c].phase == Reading {
        LogInKeepsLogins(s, c, k);
        LogInKeepsTable(s, c, k);
      }
    case Remove(c) =>
      if c < |s.conns| && s.conns[c].phase == CleaningUp { RemoveKeepsTable(s, c); }
    case _ => OtherStepsKeepTable(s, step);
  }

  lemma {:induction false} RunKeepsInv(s: State, steps: seq<Step>)
    requires Inv(s)
    ensures Inv(Run(s, steps))
    decreases |steps|
  {
    hide Inv, Apply;
    if steps != [] {
      StepKeepsInv(s, steps[0]);
      RunKeepsInv(Apply(s, steps[0]), steps[1..]);
    }
  }

  lemma Reachable(steps: seq<Step>)
    ensures Inv(Run(INIT, steps))
  {
    assert Inv(INIT);
    RunKeepsInv(INIT, steps);
  }

  /** In every interleaving, a connection that is open, in its read loop and logged in as k is the
      one the table names for k; so two such connections for one identity are the same. */
  lemma OneLiveConnection(steps: seq<Step>, c: nat, d: nat)
    requires var s := Run(INIT, steps);
      Live(s, c) && Live(s, d) && s.conns[c].login.value.imei == s.conns[d].login.value.imei
    ensures var s := Run(INIT, steps);
      var k := s.conns[c].login.value.imei;
      && c == d && k in s.table && s.table[k] < |s.sessions|
      && s.sessions[s.table[k]].conn == c && s.sessions[s.table[k]].imei == k
  {
    Reachable(steps);
    var s := Run(INIT, steps);
    assert OwnSession(s, c) && OwnSession(s, d);
  }

  /** In every run, each connect attempt and each publish follows a registry approval for that
      identity in the same call, and each publish and each disconnect follows a successful connect
      for that identity. */
  lemma UplinkIsSafe(steps: seq<Step>)
    ensures SafeTrace(Run(INIT, steps).trace)
  {
    Reachable(steps);
  }

  /** In every reachable state the table is a function of the registrations and of which handlers
      have removed their last session. */
  lemma TableExactly(steps: seq<Step>, k: Imei)
    ensures var s := Run(INIT, steps);
      var last := LastFor(s.sessions, k);
      && (k in s.table <==> last != -1 && !Retired(s, last))
      && (k in s.table ==> s.table[k] == last)
  {
    Reachable(steps);
  }

  /** A connection past its cleanup is still in the table under k exactly when it made the last
      registration for k and registered something else after that. */
  lemma StaleIff(steps: seq<Step>, c: nat, k: Imei)
    requires var s := Run(INIT, steps); c < |s.conns| && PastRemoval(s.conns[c].phase)
    ensures var s := Run(INIT, steps);
      var last := LastFor(s.sessions, k);
      k in s.table && s.table[k] < |s.sessions| && s.sessions[s.table[k]].conn == c
      <==> last != -1 && s.sessions[last].conn == c && LastBy(s.sessions, c) != last
  {
    TableExactly(steps, k);
  }

  /** No connection registered under two identities. */
  predicate SingleIdentity(s: State) {
    forall i, j :: 0 <= i < |s.sessions| && 0 <= j < |s.sessions| && s.sessions[i].conn == s.sessions[j].conn ==>
      s.sessions[i].imei == s.sessions[j].imei
  }

  /** Then SendToDevice only ever picks a connection whose handler has not removed its session and
      whose current login is the identity asked for. */
  lemma NoStaleSessions(steps: seq<Step>, k: Imei)
    requires var s := Run(INIT, steps); SingleIdentity(s) && k in s.table
    ensures var s := Run(INIT, steps);
      && s.table[k] < |s.sessions|
      && var c := s.sessions[s.table[k]].conn;
      && c < |s.conns| && !PastRemoval(s.conns[c].phase)
      && s.conns[c].login == Some(Login(k, s.table[k]))
  {
    Reachable(steps);
    var s := Run(INIT, steps);
    var id := s.table[k];
    var c := s.sessions[id].conn;
    assert LastFor(s.sessions, k) == id;
    var last := LastBy(s.sessions, c);
    assert last >= id;
    assert s.sessions[last].imei == k;
    assert last == id;
  }
}
