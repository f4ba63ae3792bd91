/** Sessions and the ThingsBoard uplink as interleaved atomic steps (internal/server/server.go).
    Each step is one lock section or one call to the outside; any number of connections, of
    `go maybeConnectTB` goroutines and of publishing calls run concurrently. */
module SessionMachine {
  import opened Types

  /** handleConn: its read loop, then the deferred cleanup: removeSession, the disconnect check,
      and closing the connection. */
  datatype Phase = Reading | CleaningUp | Removed | HungUp | Done

  predicate PastRemoval(p: Phase) { p == Removed || p == HungUp || p == Done }

  /** What the handler's local variables imei and sess hold after a login. */
  datatype Login = Login(imei: Imei, sess: nat)

  datatype Conn = Conn(phase: Phase, open: bool, login: Option<Login>)

  datatype Session = Session(imei: Imei, conn: nat, tbConnected: bool)

  /** Where a goroutine stands. The first six are ensureTBConnected and the publish behind it; the
      next three are maybeConnectTB. */
  datatype Task =
    | Check(imei: Imei)
    | Lookup(imei: Imei)
    | Flag(imei: Imei, found: Option<nat>)
    | Dial(imei: Imei, found: Option<nat>)
    | Mark(imei: Imei, found: Option<nat>)
    | Send(imei: Imei)
    | MaybeCheck(imei: Imei, sess: nat)
    | MaybeDial(imei: Imei, sess: nat)
    | MaybeMark(imei: Imei, sess: nat)
    | Finished

  /** Calls to the registry and ThingsBoard: by task t, or by the cleanup of connection c. */
  datatype Event =
    | Allowed(t: nat, imei: Imei)
    | Denied(t: nat, imei: Imei)
    | ConnectOk(t: nat, imei: Imei)
    | ConnectFailed(t: nat, imei: Imei)
    | Publish(t: nat, imei: Imei)
    | Disconnect(c: nat, imei: Imei)

  type Table = map<Imei, nat>

  /** Connections, sessions and tasks are numbered in the order in which they came to be. */
  datatype State = State(conns: seq<Conn>, sessions: seq<Session>, table: Table, tasks: seq<Task>, trace: seq<Event>)

  const INIT: State := State([], [], map[], [], [])

  // ----- the steps -----

  datatype Step =
    | Accept
    | LogIn(c: nat, imei: Imei)
    | ReadError(c: nat)
    | Remove(c: nat)
    | HangUp(c: nat)
    | Close(c: nat)
    | StartPublish(c: nat)
    | Advance(t: nat, answer: bool)

  /** The session table after registerSession and after removeSession. */
  function Registered(table: Table, imei: Imei, sess: nat): Table { table[imei := sess] }

  function Unregistered(table: Table, imei: Imei, sess: nat): Table {
    if imei in table && table[imei] == sess then table - {imei} else table
  }

  function WithConn(s: State, c: nat, conn: Conn): State
    requires c < |s.conns|
  {
    s.(conns := s.conns[c := conn])
  }

  /** registerSession closes the connection of the entry it replaces, unless it is its own. */
  function CloseReplaced(s: State, c: nat, imei: Imei): seq<Conn> {
    if imei in s.table && s.table[imei] < |s.sessions| then
      var prev := s.sessions[s.table[imei]].conn;
      if prev != c && prev < |s.conns| then s.conns[prev := s.conns[prev].(open := false)] else s.conns
    else s.conns
  }

  function DoLogIn(s: State, c: nat, imei: Imei): State
    requires c < |s.conns|
  {
    var id := |s.sessions|;
    var conns := CloseReplaced(s, c, imei);
    State(conns[c := conns[c].(login := Some(Login(imei, id)))],
          s.sessions + [Session(imei, c, false)],
          Registered(s.table, imei, id),
          s.tasks + [MaybeCheck(imei, id)],
          s.trace)
  }

  function DoRemove(s: State, c: nat): State
    requires c < |s.conns|
  {
    var conn := s.conns[c];
    var t := WithConn(s, c, conn.(phase := Removed));
    match conn.login
    case None => t
    case Some(l) => t.(table := Unregistered(s.table, l.imei, l.sess))
  }

  function DoHangUp(s: State, c: nat): State
    requires c < |s.conns|
  {
    var conn := s.conns[c];
    var t := WithConn(s, c, conn.(phase := HungUp));
    match conn.login
    case None => t
    case Some(l) =>
      if l.sess < |s.sessions| && s.sessions[l.sess].tbConnected
      then t.(trace := s.trace + [Disconnect(c, l.imei)]) else t
  }

  function SetFlag(sessions: seq<Session>, id: nat): seq<Session> {
    if id < |sessions| then sessions[id := sessions[id].(tbConnected := true)] else sessions
  }

  function Move(s: State, t: nat, task: Task, events: seq<Event>): State
    requires t < |s.tasks|
  {
    s.(tasks := s.tasks[t := task], trace := s.trace + events)
  }

  /** One step of a goroutine; `answer` is the registry's or ThingsBoard's. */
  function DoAdvance(s: State, t: nat, answer: bool): State
    requires t < |s.tasks|
  {
    match s.tasks[t]
    case Check(k) =>
      if answer then Move(s, t, Lookup(k), [Allowed(t, k)]) else Move(s, t, Finished, [Denied(t, k)])
    case Lookup(k) => Move(s, t, Flag(k, if k in s.table then Some(s.table[k]) else None), [])
    case Flag(k, found) =>
      if found.Some? && found.value < |s.sessions| && s.sessions[found.value].tbConnected
      then Move(s, t, Send(k), []) else Move(s, t, Dial(k, found), [])
    case Dial(k, found) =>
      if answer then Move(s, t, Mark(k, found), [ConnectOk(t, k)]) else Move(s, t, Finished, [ConnectFailed(t, k)])
    case Mark(k, found) =>
      var m := Move(s, t, Send(k), []);
      if found.Some? then m.(sessions := SetFlag(s.sessions, found.value)) else m
    case Send(k) => Move(s, t, Finished, [Publish(t, k)])
    case MaybeCheck(k, id) =>
      if answer then Move(s, t, MaybeDial(k, id), [Allowed(t, k)]) else Move(s, t, Finished, [Denied(t, k)])
    case MaybeDial(k, id) =>
      if answer then Move(s, t, MaybeMark(k, id), [ConnectOk(t, k)]) else Move(s, t, Finished, [ConnectFailed(t, k)])
    case MaybeMark(k, id) => Move(s, t, Finished, []).(sessions := SetFlag(s.sessions, id))
    case Finished => s
  }

  /** A step that is not enabled does nothing. A handler goes on handling buffered frames after
      another one closed its connection, so a login does not ask whether it is open. */
  function Apply(s: State, step: Step): State {
    match step
    case Accept => s.(conns := s.conns + [Conn(Reading, true, None)])
    case LogIn(c, k) => if c < |s.conns| && s.conns[c].phase == Reading then DoLogIn(s, c, k) else s
    case ReadError(c) =>
      if c < |s.conns| && s.conns[c].phase == Reading then WithConn(s, c, s.conns[c].(phase := CleaningUp)) else s
    case Remove(c) => if c < |s.conns| && s.conns[c].phase == CleaningUp then DoRemove(s, c) else s
    case HangUp(c) => if c < |s.conns| && s.conns[c].phase == Removed then DoHangUp(s, c) else s
    case Close(c) =>
      if c < |s.conns| && s.conns[c].phase == HungUp
      then WithConn(s, c, s.conns[c].(phase := Done, open := false)) else s
    case StartPublish(c) =>
      if c < |s.conns| && s.conns[c].phase == Reading && s.conns[c].login.Some?
      then s.(tasks := s.tasks + [Check(s.conns[c].login.value.imei)]) else s
    case Advance(t, answer) => if t < |s.tasks| then DoAdvance(s, t, answer) else s
  }

  function Run(s: State, steps: seq<Step>): State
    decreases |steps|
  {
    if steps == [] then s else Run(Apply(s, steps[0]), steps[1..])
  }

  lemma {:induction false} RunSnoc(s: State, steps: seq<Step>, step: Step)
    ensures Run(s, steps + [step]) == Apply(Run(s, steps), step)
    decreases |steps|
  {
    hide Apply;
    if steps == [] {
      assert steps + [step] == [step] && Run(Apply(s, step), [step][1..]) == Apply(s, step);
    } else {
      assert (steps + [step])[1..] == steps[1..] + [step];
      RunSnoc(Apply(s, steps[0]), steps[1..], step);
    }
  }

  lemma RunStep(s: State, step: Step, steps: seq<Step>)
    ensures Run(s, [step] + steps) == Run(Apply(s, step), steps)
  {}

  lemma {:induction false} RunConcat(s: State, a: seq<Step>, b: seq<Step>)
    ensures Run(s, a + b) == Run(Run(s, a), b)
    decreases |a|
  {
    if a == [] {
      assert a + b == b;
    } else {
      assert (a + b)[1..] == a[1..] + b;
      RunConcat(Apply(s, a[0]), a[1..], b);
    }
  }

  // ----- what every step keeps -----

  predicate References(s: State) {
    && (forall i :: 0 <= i < |s.sessions| ==> s.sessions[i].conn < |s.conns|)
    && (forall k :: k in s.table ==> s.table[k] < |s.sessions| && s.sessions[s.table[k]].imei == k)
    && (forall c :: 0 <= c < |s.conns| && s.conns[c].login.Some? ==> OwnSession(s, c))
  }

  predicate OwnSession(s: State, c: nat)
    requires c < |s.conns| && s.conns[c].login.Some?
  {
    var l := s.conns[c].login.value;
    l.sess < |s.sessions| && s.sessions[l.sess].imei == l.imei && s.sessions[l.sess].conn == c
  }

  /** Open, in its read loop, and logged in. */
  predicate Live(s: State, c: nat) {
    c < |s.conns| && s.conns[c].open && s.conns[c].phase == Reading && s.conns[c].login.Some?
  }

  /** Each live connection is the one the table names for its identity. */
  predicate LiveAreListed(s: State) {
    forall c :: 0 <= c < |s.conns| && Live(s, c) ==>
      var l := s.conns[c].login.value; l.imei in s.table && s.table[l.imei] == l.sess
  }

  lemma LogInKeepsListing(s: State, c: nat, k: Imei)
    requires c < |s.conns| && s.conns[c].phase == Reading && References(s) && LiveAreListed(s)
    ensures References(DoLogIn(s, c, k)) && LiveAreListed(DoLogIn(s, c, k))
  {
    var t := DoLogIn(s, c, k);
    forall d | 0 <= d < |t.conns| && t.conns[d].login.Some? ensures OwnSession(t, d) {
      if d != c { assert OwnSession(s, d); }
    }
    forall d | 0 <= d < |t.conns| && Live(t, d)
      ensures var l := t.conns[d].login.value; l.imei in t.table && t.table[l.imei] == l.sess
    {
      if d != c {
        assert Live(s, d) && OwnSession(s, d);
      }
    }
  }

  lemma RemoveKeepsListing(s: State, c: nat)
    requires c < |s.conns| && s.conns[c].phase == CleaningUp && References(s) && LiveAreListed(s)
    ensures References(DoRemove(s, c)) && LiveAreListed(DoRemove(s, c))
  {}

  /** The steps that touch neither the table nor who owns a session. */
  predicate SameOwners(s: State, t: State) {
    && |t.conns| >= |s.conns| && t.table == s.table && |t.sessions| == |s.sessions|
    && (forall c :: 0 <= c < |s.conns| ==> t.conns[c].login == s.conns[c].login && (Live(t, c) ==> Live(s, c)))
    && (forall c :: |s.conns| <= c < |t.conns| ==> t.conns[c].login == None)
    && (forall i :: 0 <= i < |s.sessions| ==>
          t.sessions[i].imei == s.sessions[i].imei && t.sessions[i].conn == s.sessions[i].conn)
  }

  lemma SameOwnersKeepsListing(s: State, t: State)
    requires References(s) && LiveAreListed(s) && SameOwners(s, t)
    ensures References(t) && LiveAreListed(t)
  {}

  lemma OtherStepsSameOwners(s: State, step: Step)
    requires !step.LogIn? && !step.Remove?
    ensures SameOwners(s, Apply(s, step))
  {
    if step.Advance? && step.t < |s.tasks| { AdvanceSameOwners(s, step.t, step.answer); }
    hide DoAdvance;
  }

  lemma AdvanceSameOwners(s: State, t: nat, answer: bool)
    requires t < |s.tasks|
    ensures SameOwners(s, DoAdvance(s, t, answer))
  {}

  lemma StepKeepsListing(s: State, step: Step)
    requires References(s) && LiveAreListed(s)
    ensures References(Apply(s, step)) && LiveAreListed(Apply(s, step))
  {
    hide References, LiveAreListed, DoLogIn, DoRemove, DoHangUp, DoAdvance, SameOwners;
    match step
    case LogIn(c, k) =>
      if c < |s.conns| && s.conns[c].phase == Reading { LogInKeepsListing(s, c, k); }
    case Remove(c) =>
      if c < |s.conns| && s.conns[c].phase == CleaningUp { RemoveKeepsListing(s, c); }
    case _ =>
      OtherStepsSameOwners(s, step);
      SameOwnersKeepsListing(s, Apply(s, step));
  }
}
