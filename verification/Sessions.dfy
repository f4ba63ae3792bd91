/** The server's shared state as its goroutines update it (internal/server/server.go). Each method
    is proved to take exactly the steps of SessionMachine that its `ensures` lists, so what is
    proved there of every run holds of the objects here. */
module Sessions {
  import opened Types
  import M = SessionMachine
  import T = SessionTheorems

  /** A decision of uplinkAllowed, or a call to ThingsBoard with its answer. */
  datatype Call =
    | Approval(imei: Imei, allowed: bool)
    | ConnectDevice(imei: Imei, ok: bool)
    | PublishTelemetry(imei: Imei)
    | DisconnectDevice(imei: Imei)

  /** What the outside sees of an event: not which goroutine caused it. */
  function CallOf(e: M.Event): Call {
    match e
    case Allowed(_, k) => Approval(k, true)
    case Denied(_, k) => Approval(k, false)
    case ConnectOk(_, k) => ConnectDevice(k, true)
    case ConnectFailed(_, k) => ConnectDevice(k, false)
    case Publish(_, k) => PublishTelemetry(k)
    case Disconnect(_, k) => DisconnectDevice(k)
  }

  class SafeConn {
    ghost const id: nat
    var open: bool

    constructor (ghost id: nat)
      ensures this.id == id && open
    {
      this.id := id;
      open := true;
    }

    method Close()
      modifies this
      ensures !open
    {
      open := false;
    }
  }

  class Session {
    ghost const id: nat
    const imei: Imei
    const conn: SafeConn
    var tbConnected: bool

    constructor (ghost id: nat, imei: Imei, conn: SafeConn)
      ensures this.id == id && this.imei == imei && this.conn == conn && !tbConnected
    {
      this.id, this.imei, this.conn, tbConnected := id, imei, conn, false;
    }
  }

  /** The table less an entry, if it holds this very session. */
  function Without(sessions: map<Imei, Session>, imei: Imei, sess: Session?): map<Imei, Session> {
    if imei in sessions && sessions[imei] == sess then sessions - {imei} else sessions
  }

  /** `calls` records the uplink decisions and the calls to ThingsBoard with their answers. */
  class Server {
    const registryEnabled: bool
    var sessions: map<Imei, Session>
    var calls: seq<Call>
    ghost var conns: seq<SafeConn>
    ghost var made: seq<Session>
    ghost var history: seq<M.Step>
    ghost var model: M.State

    /** The objects are what the machine shows after the steps in `history`. */
    ghost predicate Valid()
      reads this, conns, made
    {
      && model == M.Run(M.INIT, history)
      && ShowsCalls() && ShowsConns() && ShowsSessions() && ShowsTable()
    }

    ghost predicate ShowsCalls()
      reads this
    {
      |calls| == |model.trace| && forall i :: 0 <= i < |calls| ==> calls[i] == CallOf(model.trace[i])
    }

    ghost predicate ShowsConns()
      reads this, conns
    {
      |conns| == |model.conns| && forall i :: 0 <= i < |conns| ==> conns[i].id == i && conns[i].open == model.conns[i].open
    }

    ghost predicate ShowsSessions()
      reads this, made
    {
      |made| == |model.sessions| && forall i :: 0 <= i < |made| ==> ShowsSession(i)
    }

    ghost predicate ShowsSession(i: nat)
      requires i < |made| && i < |model.sessions|
      reads this, made
    {
      var s := made[i];
      s.id == i && Has(s.conn) && model.sessions[i] == M.Session(s.imei, s.conn.id, s.tbConnected)
    }

    ghost predicate ShowsTable()
      reads this
    {
      && model.table.Keys == sessions.Keys
      && forall k :: k in sessions ==> model.table[k] < |made| && made[model.table[k]] == sessions[k]
    }

    ghost predicate Has(conn: SafeConn)
      reads this
    {
      conn.id < |conns| && conns[conn.id] == conn
    }

    constructor (registryEnabled: bool)
      ensures Valid() && history == [] && sessions == map[] && this.registryEnabled == registryEnabled
    {
      this.registryEnabled := registryEnabled;
      sessions, calls, conns, made := map[], [], [], [];
      history, model := [], M.INIT;
    }

    /** One step of the machine is on record. */
    ghost method Took(step: M.Step)
      requires model == M.Run(M.INIT, history)
      modifies this`history, this`model
      ensures history == old(history) + [step]
      ensures model == M.Apply(old(model), step) && model == M.Run(M.INIT, history)
    {
      M.RunSnoc(M.INIT, history, step);
      model := M.Apply(model, step);
      history := history + [step];
    }

    method Accept() returns (conn: SafeConn)
      requires Valid()
      modifies this
      ensures Valid() && fresh(conn) && conns == old(conns) + [conn] && Has(conn)
      ensures history == old(history) + [M.Accept] && sessions == old(sessions) && calls == old(calls)
    {
      conn := new SafeConn(|conns|);
      conns := conns + [conn];
      Took(M.Accept);
      forall i | 0 <= i < |made| ensures ShowsSession(i) { assert old(ShowsSession(i)); }
    }

    method RegisterSession(imei: Imei, conn: SafeConn, ghost id: nat) returns (sess: Session)
      modifies this`sessions, if imei in sessions && sessions[imei].conn != conn then {sessions[imei].conn} else {}
      ensures fresh(sess) && sess.id == id && sess.imei == imei && sess.conn == conn && !sess.tbConnected
      ensures sessions == old(sessions)[imei := sess]
      ensures imei in old(sessions) && old(sessions)[imei].conn != conn ==> !old(sessions)[imei].conn.open
    {
      if imei in sessions && sessions[imei].conn != conn {
        sessions[imei].conn.Close();
      }
      sess := new Session(id, imei, conn);
      sessions := sessions[imei := sess];
    }

    /** What a login does to the machine, field by field. */
    lemma LogInEffect(s: M.State, c: nat, k: Imei)
      requires c < |s.conns| && s.conns[c].phase == M.Reading
      ensures var t := M.Apply(s, M.LogIn(c, k));
        && t.sessions == s.sessions + [M.Session(k, c, false)] && t.table == s.table[k := |s.sessions|]
        && t.tasks == s.tasks + [M.MaybeCheck(k, |s.sessions|)] && t.trace == s.trace
        && |t.conns| == |s.conns| && t.conns[c].login == Some(M.Login(k, |s.sessions|))
        && t.conns[c].phase == M.Reading
        && forall i :: 0 <= i < |t.conns| ==> t.conns[i].open == (s.conns[i].open && !Replaces(s, c, k, i))
    {}

    ghost predicate Replaces(s: M.State, c: nat, k: Imei, i: nat) {
      k in s.table && s.table[k] < |s.sessions| && i == s.sessions[s.table[k]].conn && i != c
    }

    /** The objects after registerSession, while the machine is still to log in. */
    ghost predicate Registering(conn: SafeConn, imei: Imei, sess: Session)
      reads this, conns, made, sess
    {
      && ShowsCalls() && ShowsSessions() && |conns| == |model.conns|
      && (forall i :: 0 <= i < |conns| ==> conns[i].id == i)
      && (forall i :: 0 <= i < |conns| ==>
            conns[i].open == (model.conns[i].open && !Replaces(model, conn.id, imei, i)))
      && sess.id == |made| && sess.imei == imei && sess.conn == conn && !sess.tbConnected
      && sessions.Keys == model.table.Keys + {imei} && sessions[imei] == sess
      && (forall k :: k in sessions && k != imei ==> model.table[k] < |made| && made[model.table[k]] == sessions[k])
    }

    ghost method Note(conn: SafeConn, imei: Imei, sess: Session)
      requires model == M.Run(M.INIT, history) && In(conn, M.Reading) && imei != []
      requires Registering(conn, imei, sess)
      modifies this`made, this`model, this`history
      ensures Valid() && In(conn, M.Reading) && Holds(conn, imei, sess) && made == old(made) + [sess]
      ensures history == old(history) + [M.LogIn(conn.id, imei)]
      ensures model.tasks == old(model.tasks) + [M.MaybeCheck(imei, sess.id)]
    {
      hide M.Run, M.Apply;
      LogInEffect(model, conn.id, imei);
      made := made + [sess];
      Took(M.LogIn(conn.id, imei));
      forall i | 0 <= i < |made| ensures ShowsSession(i) { assert i < |old(made)| ==> old(ShowsSession(i)); }
    }

    /** The login branch of handleFrame, up to the goroutine it starts. ParseLogin never gives an
        empty identity. */
    method LogIn(conn: SafeConn, imei: Imei) returns (sess: Session)
      requires Valid() && In(conn, M.Reading) && imei != []
      modifies this, if imei in sessions && sessions[imei].conn != conn then {sessions[imei].conn} else {}
      ensures Valid() && conns == old(conns) && calls == old(calls) && made == old(made) + [sess]
      ensures history == old(history) + [M.LogIn(conn.id, imei)]
      ensures fresh(sess) && sess.imei == imei && sess.conn == conn && sessions == old(sessions)[imei := sess]
      ensures In(conn, M.Reading) && Holds(conn, imei, sess)
      ensures model.tasks == old(model.tasks) + [M.MaybeCheck(imei, sess.id)]
    {
      assert imei in sessions ==> ShowsSession(model.table[imei]);
      hide M.Run, M.Apply;
      sess := RegisterSession(imei, conn, |made|);
      forall i | 0 <= i < |made| ensures ShowsSession(i) { assert old(ShowsSession(i)); }
      Note(conn, imei, sess);
    }

    method RemoveSession(imei: Imei, sess: Session?)
      modifies this`sessions
      ensures sessions == Without(old(sessions), imei, sess)
    {
      if imei in sessions && sessions[imei] == sess {
        sessions := sessions - {imei};
      }
    }

    ghost predicate In(conn: SafeConn, phase: M.Phase)
      reads this
    {
      Has(conn) && conn.id < |model.conns| && model.conns[conn.id].phase == phase
    }

    /** The handler's variables imei and sess, as the machine has them; before a login both are empty. */
    ghost predicate Holds(conn: SafeConn, imei: Imei, sess: Session?)
      reads this
    {
      && Has(conn) && conn.id < |model.conns| && (imei == [] <==> sess == null)
      && (sess == null ==> model.conns[conn.id].login == None)
      && (sess != null ==> model.conns[conn.id].login == Some(M.Login(imei, sess.id)))
      && (sess != null ==> sess.id < |made| && made[sess.id] == sess)
    }

    ghost method FailRead(conn: SafeConn, imei: Imei, sess: Session?)
      requires Valid() && Holds(conn, imei, sess) && In(conn, M.Reading)
      modifies this`model, this`history
      ensures Valid() && Holds(conn, imei, sess) && In(conn, M.CleaningUp)
      ensures history == old(history) + [M.ReadError(conn.id)]
    {
      Took(M.ReadError(conn.id));
      forall i | 0 <= i < |made| ensures ShowsSession(i) { assert old(ShowsSession(i)); }
    }

    method Forget(conn: SafeConn, imei: Imei, sess: Session?)
      requires Valid() && Holds(conn, imei, sess) && In(conn, M.CleaningUp)
      modifies this`sessions, this`model, this`history
      ensures Valid() && Holds(conn, imei, sess) && In(conn, M.Removed)
      ensures history == old(history) + [M.Remove(conn.id)]
      ensures sessions == if imei == [] then old(sessions) else Without(old(sessions), imei, sess)
    {
      if imei != [] {
        assert imei in sessions ==> ShowsSession(model.table[imei]);
        RemoveSession(imei, sess);
      }
      Took(M.Remove(conn.id));
      forall i | 0 <= i < |made| ensures ShowsSession(i) { assert old(ShowsSession(i)); }
    }

    method SayGoodbye(conn: SafeConn, imei: Imei, sess: Session?)
      requires Valid() && Holds(conn, imei, sess) && In(conn, M.Removed)
      modifies this`calls, this`model, this`history
      ensures Valid() && In(conn, M.HungUp)
      ensures history == old(history) + [M.HangUp(conn.id)]
      ensures calls == old(calls) + (if sess != null && sess.tbConnected then [DisconnectDevice(imei)] else [])
    {
      if imei != [] {
        assert ShowsSession(sess.id);
        if sess != null && sess.tbConnected {
          calls := calls + [DisconnectDevice(imei)];
        }
      }
      Took(M.HangUp(conn.id));
      forall i | 0 <= i < |made| ensures ShowsSession(i) { assert old(ShowsSession(i)); }
    }

    method Close(conn: SafeConn)
      requires Valid() && In(conn, M.HungUp)
      modifies this`model, this`history, conn
      ensures Valid() && In(conn, M.Done) && !conn.open
      ensures history == old(history) + [M.Close(conn.id)]
    {
      conn.Close();
      Took(M.Close(conn.id));
      forall i | 0 <= i < |made| ensures ShowsSession(i) { assert old(ShowsSession(i)); }
    }

    /** What handleConn defers, once its read has failed. */
    method CleanUp(conn: SafeConn, imei: Imei, sess: Session?)
      requires Valid() && Holds(conn, imei, sess) && In(conn, M.Reading)
      modifies this`sessions, this`calls, this`model, this`history, conn
      ensures Valid() && In(conn, M.Done) && !conn.open
      ensures history == old(history) + [M.ReadError(conn.id), M.Remove(conn.id), M.HangUp(conn.id), M.Close(conn.id)]
      ensures calls == old(calls) + (if sess != null && sess.tbConnected then [DisconnectDevice(imei)] else [])
      ensures sessions == if imei == [] then old(sessions) else Without(old(sessions), imei, sess)
    {
      hide Valid, Holds;
      FailRead(conn, imei, sess);
      Forget(conn, imei, sess);
      SayGoodbye(conn, imei, sess);
      Close(conn);
    }

    // ----- goroutines: ensureTBConnected, publishTelemetry, maybeConnectTB -----

    ghost predicate At(t: nat, task: M.Task)
      reads this`model
    {
      t < |model.tasks| && model.tasks[t] == task
    }

    /** The pointer a goroutine has read from the table. */
    ghost predicate Found(found: Option<nat>, sess: Session?)
      reads this
    {
      if sess == null then found == None else found == Some(sess.id) && sess.id < |made| && made[sess.id] == sess
    }

    /** An empty identity never goes up; a disabled registry is not asked. */
    predicate Approves(imei: Imei, answer: bool) { imei != [] && (registryEnabled ==> answer) }

    /** uplinkAllowed; `answer` is what the registry says if it is asked. */
    method UplinkAllowed(imei: Imei, answer: bool, ghost t: nat) returns (allowed: bool)
      requires Valid() && t < |model.tasks|
      requires model.tasks[t] == M.Check(imei) || (model.tasks[t].MaybeCheck? && model.tasks[t].imei == imei)
      modifies this`calls, this`model, this`history
      ensures Valid() && allowed == Approves(imei, answer) && calls == old(calls) + [Approval(imei, allowed)]
      ensures imei == [] ==> !allowed
      ensures imei != [] ==> allowed == if registryEnabled then answer else true
      ensures history == old(history) + [M.Advance(t, allowed)]
      ensures model.sessions == old(model.sessions) && model.table == old(model.table) && |model.tasks| == |old(model.tasks)|
      ensures model.tasks[t] ==
        if !allowed then M.Finished
        else if old(model.tasks[t]).Check? then M.Lookup(imei) else M.MaybeDial(imei, old(model.tasks[t]).sess)
    {
      if imei == [] {
        allowed := false;
      } else if !registryEnabled {
        allowed := true;
      } else {
        allowed := answer;
      }
      calls := calls + [Approval(imei, allowed)];
      Took(M.Advance(t, allowed));
      hide M.Run;
      forall i | 0 <= i < |made| ensures ShowsSession(i) { assert old(ShowsSession(i)); }
    }

    /** ConnectDevice, with ThingsBoard's answer. */
    method ConnectDevice(imei: Imei, answer: bool, ghost t: nat)
      requires Valid() && t < |model.tasks|
      requires (model.tasks[t].Dial? || model.tasks[t].MaybeDial?) && model.tasks[t].imei == imei
      modifies this`calls, this`model, this`history
      ensures Valid() && calls == old(calls) + [Call.ConnectDevice(imei, answer)]
      ensures history == old(history) + [M.Advance(t, answer)]
      ensures model.sessions == old(model.sessions) && model.table == old(model.table) && |model.tasks| == |old(model.tasks)|
      ensures model.tasks[t] ==
        if !answer then M.Finished else if old(model.tasks[t]).Dial? then M.Mark(imei, old(model.tasks[t]).found)
        else M.MaybeMark(imei, old(model.tasks[t]).sess)
    {
      calls := calls + [Call.ConnectDevice(imei, answer)];
      Took(M.Advance(t, answer));
      hide M.Run;
      forall i | 0 <= i < |made| ensures ShowsSession(i) { assert old(ShowsSession(i)); }
    }

    ghost predicate Marking(t: nat, sess: Session?)
      reads this
    {
      && t < |model.tasks| && (model.tasks[t].Mark? || model.tasks[t].MaybeMark?)
      && Found(if model.tasks[t].Mark? then model.tasks[t].found else Some(model.tasks[t].sess), sess)
    }

    method SetConnected(sess: Session?, ghost t: nat)
      requires Valid() && Marking(t, sess)
      modifies this`model, this`history, if sess != null then {sess} else {}
      ensures Valid() && (sess != null ==> sess.tbConnected) && history == old(history) + [M.Advance(t, true)]
      ensures |model.tasks| == |old(model.tasks)|
      ensures model.tasks[t] == if old(model.tasks[t]).Mark? then M.Send(old(model.tasks[t]).imei) else M.Finished
    {
      if sess != null {
        sess.tbConnected := true;
      }
      Took(M.Advance(t, true));
      hide M.Run;
      forall i | 0 <= i < |made| ensures ShowsSession(i) { assert old(ShowsSession(i)); }
    }

    /** Reading the table, then the flag of what was found there. */
    method Connected(imei: Imei, ghost t: nat) returns (sess: Session?, flagged: bool)
      requires Valid() && At(t, M.Lookup(imei))
      modifies this`model, this`history
      ensures Valid() && history == old(history) + [M.Advance(t, true), M.Advance(t, true)]
      ensures sess == (if imei in sessions then sessions[imei] else null) && flagged == (sess != null && sess.tbConnected)
      ensures |model.tasks| == |old(model.tasks)|
      ensures if flagged then model.tasks[t] == M.Send(imei)
              else model.tasks[t].Dial? && model.tasks[t].imei == imei && Found(model.tasks[t].found, sess)
    {
      sess := if imei in sessions then sessions[imei] else null;
      assert imei in sessions ==> ShowsSession(model.table[imei]);
      Took(M.Advance(t, true));
      flagged := sess != null && sess.tbConnected;
      Took(M.Advance(t, true));
      hide M.Run;
      forall i | 0 <= i < |made| ensures ShowsSession(i) { assert old(ShowsSession(i)); }
    }

    /** The steps of one ensureTBConnected. */
    static ghost function Asking(t: nat, allowed: bool, flagged: bool, dialled: bool): seq<M.Step> {
      if !allowed then [M.Advance(t, false)]
      else if flagged then [M.Advance(t, true), M.Advance(t, true), M.Advance(t, true)]
      else if !dialled then [M.Advance(t, true), M.Advance(t, true), M.Advance(t, true), M.Advance(t, false)]
      else [M.Advance(t, true), M.Advance(t, true), M.Advance(t, true), M.Advance(t, true), M.Advance(t, true)]
    }

    /** The calls it makes. */
    static function Asked(imei: Imei, allowed: bool, flagged: bool, dialled: bool): seq<Call> {
      if allowed && !flagged then [Approval(imei, true), Call.ConnectDevice(imei, dialled)]
      else [Approval(imei, allowed)]
    }

    /** Whether telemetry may be published. A session already connected is not announced again. */
    method EnsureTBConnected(imei: Imei, answer: bool, dialled: bool, ghost t: nat) returns (ok: bool)
      requires Valid() && At(t, M.Check(imei))
      modifies this`calls, this`model, this`history, if imei in sessions then {sessions[imei]} else {}
      ensures Valid() && |model.tasks| == |old(model.tasks)|
      ensures var flagged, allowed := imei in sessions && old(sessions[imei].tbConnected), Approves(imei, answer);
        && ok == (allowed && (flagged || dialled)) && At(t, if ok then M.Send(imei) else M.Finished)
        && (ok && imei in sessions ==> sessions[imei].tbConnected)
        && history == old(history) + Asking(t, allowed, flagged, dialled)
        && calls == old(calls) + Asked(imei, allowed, flagged, dialled)
    {
      hide Valid;
      var allowed := UplinkAllowed(imei, answer, t);
      if !allowed {
        return false;
      }
      var sess, flagged := Connected(imei, t);
      if flagged {
        return true;
      }
      ConnectDevice(imei, dialled, t);
      if !dialled {
        return false;
      }
      SetConnected(sess, t);
      return true;
    }

    ghost method Start(conn: SafeConn, imei: Imei, sess: Session?)
      requires Valid() && Holds(conn, imei, sess) && In(conn, M.Reading) && imei != []
      modifies this`model, this`history
      ensures Valid() && history == old(history) + [M.StartPublish(conn.id)]
      ensures |model.tasks| == |old(model.tasks)| + 1 && At(|old(model.tasks)|, M.Check(imei))
    {
      Took(M.StartPublish(conn.id));
      hide M.Run;
      forall i | 0 <= i < |made| ensures ShowsSession(i) { assert old(ShowsSession(i)); }
    }

    method Send(imei: Imei, ghost t: nat)
      requires Valid() && At(t, M.Send(imei))
      modifies this`calls, this`model, this`history
      ensures Valid() && calls == old(calls) + [Call.PublishTelemetry(imei)]
      ensures history == old(history) + [M.Advance(t, true)]
    {
      calls := calls + [Call.PublishTelemetry(imei)];
      Took(M.Advance(t, true));
      hide M.Run;
      forall i | 0 <= i < |made| ensures ShowsSession(i) { assert old(ShowsSession(i)); }
    }

    /** publishTelemetry and publishLocation, by the handler of conn. */
    method PublishTelemetry(conn: SafeConn, imei: Imei, sess: Session?, answer: bool, dialled: bool)
      requires Valid() && Holds(conn, imei, sess) && In(conn, M.Reading)
      modifies this`calls, this`model, this`history, if imei in sessions then {sessions[imei]} else {}
      ensures Valid() && (imei == [] ==> calls == old(calls) && history == old(history))
      ensures imei != [] ==>
        var flagged, allowed := imei in sessions && old(sessions[imei].tbConnected), Approves(imei, answer);
        var ok := allowed && (flagged || dialled);
        var t := |old(model.tasks)|;
        && calls == old(calls) + Asked(imei, allowed, flagged, dialled) + (if ok then [Call.PublishTelemetry(imei)] else [])
        && history == old(history) + [M.StartPublish(conn.id)] + Asking(t, allowed, flagged, dialled)
                      + (if ok then [M.Advance(t, true)] else [])
      ensures var flagged := imei in sessions && old(sessions[imei].tbConnected);
        calls != [] && calls[|calls| - 1] == Call.PublishTelemetry(imei) && |calls| > |old(calls)| <==>
        imei != [] && (!registryEnabled || answer) && (flagged || dialled)
    {
      if imei == [] {
        return;
      }
      ghost var t := |model.tasks|;
      Start(conn, imei, sess);
      var ok := EnsureTBConnected(imei, answer, dialled, t);
      if !ok {
        return;
      }
      Send(imei, t);
    }

    /** The goroutine a login starts: it always announces the device. */
    method MaybeConnectTB(sess: Session, imei: Imei, answer: bool, dialled: bool, ghost t: nat)
      requires Valid() && At(t, M.MaybeCheck(imei, sess.id)) && Found(Some(sess.id), sess)
      modifies this`calls, this`model, this`history, sess
      ensures Valid() && At(t, M.Finished)
      ensures var allowed := Approves(imei, answer);
        && sess.tbConnected == (old(sess.tbConnected) || (allowed && dialled))
        && history == old(history) + [M.Advance(t, allowed)] + (if allowed then [M.Advance(t, dialled)] else [])
                      + (if allowed && dialled then [M.Advance(t, true)] else [])
        && calls == old(calls) + [Approval(imei, allowed)]
                    + (if allowed then [Call.ConnectDevice(imei, dialled)] else [])
    {
      hide Valid;
      var allowed := UplinkAllowed(imei, answer, t);
      if !allowed {
        return;
      }
      ConnectDevice(imei, dialled, t);
      if !dialled {
        return;
      }
      SetConnected(sess, t);
    }

    /** The connection a downlink command for imei is written to; null if the device is offline. */
    method SendToDevice(imei: Imei) returns (conn: SafeConn?)
      requires Valid()
      ensures conn == null <==> imei !in sessions
      ensures conn != null ==> conn in conns && sessions[imei].conn == conn && sessions[imei].imei == imei
    {
      if imei !in sessions {
        return null;
      }
      assert M.References(model) by { T.Reachable(history); }
      assert ShowsSession(model.table[imei]);
      return sessions[imei].conn;
    }

    /** Two open connections whose handlers are reading and hold sessions for one identity are one,
        and the table holds that session. */
    lemma OneConnectionPerTracker(a: SafeConn, b: SafeConn, imei: Imei, p: Session, q: Session)
      requires Valid() && Holds(a, imei, p) && Holds(b, imei, q)
      requires In(a, M.Reading) && In(b, M.Reading) && a.open && b.open
      ensures a == b && p == q && imei in sessions && sessions[imei] == p
    {
      assert M.Live(model, a.id) && M.Live(model, b.id);
      T.OneLiveConnection(history, a.id, b.id);
      T.Reachable(history);
    }

    /** The calls made so far: telemetry only after an approval and a successful connect for the
        same identity, a disconnect only after a successful connect. */
    lemma CallsAreSafe(i: nat)
      requires Valid() && i < |calls|
      ensures calls[i].PublishTelemetry? ==> Approval(calls[i].imei, true) in calls[..i]
      ensures calls[i].PublishTelemetry? || calls[i].DisconnectDevice? ==>
        Call.ConnectDevice(calls[i].imei, true) in calls[..i]
    {
      T.UplinkIsSafe(history);
      var before, e := model.trace[..i], model.trace[i];
      assert T.Justified(before, e);
      if e.Publish? {
        var j :| 0 <= j < |before| && before[j] == M.Allowed(e.t, e.imei);
        assert calls[..i][j] == Approval(e.imei, true);
      }
      if e.Publish? || e.Disconnect? {
        var t: nat :| M.ConnectOk(t, e.imei) in before;
        var j :| 0 <= j < |before| && before[j] == M.ConnectOk(t, e.imei);
        assert calls[..i][j] == Call.ConnectDevice(e.imei, true);
      }
    }
  }
}
