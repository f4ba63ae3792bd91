/** Telemetry for a device that ThingsBoard has been told is gone: exactly when it can follow
    (internal/server/server.go, handleConn's cleanup and ensureTBConnected). */
module SessionDisconnects {
  import opened Types
  import opened SessionMachine
  import opened SessionTheorems

  // ----- the events of a run -----

  /** What one step adds to the trace. */
  function New(s: State, step: Step): seq<Event> {
    match step
    case HangUp(c) =>
      if c < |s.conns| && s.conns[c].phase == Removed && s.conns[c].login.Some?
         && s.conns[c].login.value.sess < |s.sessions| && s.sessions[s.conns[c].login.value.sess].tbConnected
      then [Disconnect(c, s.conns[c].login.value.imei)] else []
    case Advance(t, answer) =>
      if t >= |s.tasks| then [] else
      (match s.tasks[t]
       case Check(k) => [if answer then Allowed(t, k) else Denied(t, k)]
       case MaybeCheck(k, _) => [if answer then Allowed(t, k) else Denied(t, k)]
       case Dial(k, _) => [if answer then ConnectOk(t, k) else ConnectFailed(t, k)]
       case MaybeDial(k, _) => [if answer then ConnectOk(t, k) else ConnectFailed(t, k)]
       case Send(k) => [Publish(t, k)]
       case _ => [])
    case _ => []
  }

  lemma StepAdds(s: State, step: Step)
    ensures Apply(s, step).trace == s.trace + New(s, step)
  {}

  function Emitted(s: State, steps: seq<Step>): seq<Event>
    decreases |steps|
  {
    if steps == [] then [] else New(s, steps[0]) + Emitted(Apply(s, steps[0]), steps[1..])
  }

  lemma {:induction false} RunAdds(s: State, steps: seq<Step>)
    ensures Run(s, steps).trace == s.trace + Emitted(s, steps)
    decreases |steps|
  {
    hide Apply, New;
    if steps != [] {
      StepAdds(s, steps[0]);
      RunAdds(Apply(s, steps[0]), steps[1..]);
    }
  }

  predicate NoConnect(events: seq<Event>, k: Imei) {
    forall i :: 0 <= i < |events| ==> !(events[i].ConnectOk? && events[i].imei == k)
  }

  /** Goroutine t publishes for k before anyone connects k. */
  ghost predicate Unannounced(events: seq<Event>, t: nat, k: Imei) {
    exists j :: 0 <= j < |events| && events[j] == Publish(t, k) && NoConnect(events[..j], k)
  }

  // ----- which goroutines can do that -----

  /** The next step of the goroutine raises the flag of session id. */
  predicate Marks(task: Task, id: nat) {
    (task.Mark? && task.found == Some(id)) || (task.MaybeMark? && task.sess == id)
  }

  /** The session counts as connected, or is about to without a further connect. */
  ghost predicate Markable(s: State, id: nat) {
    id < |s.sessions| && (s.sessions[id].tbConnected || exists u :: 0 <= u < |s.tasks| && Marks(s.tasks[u], id))
  }

  /** The goroutine is past its table lookup and need not connect any more. */
  ghost predicate Overtakes(s: State, t: nat, k: Imei) {
    t < |s.tasks| &&
    match s.tasks[t]
    case Send(j) => j == k
    case Mark(j, _) => j == k
    case Flag(j, found) => j == k && found.Some? && Markable(s, found.value)
    case _ => false
  }

  ghost predicate Listed(s: State, k: Imei) { k in s.table && Markable(s, s.table[k]) }

  ghost predicate Publisher(s: State, k: Imei) {
    exists c :: 0 <= c < |s.conns| && s.conns[c].phase == Reading
                && s.conns[c].login.Some? && s.conns[c].login.value.imei == k
  }

  /** The goroutine has its table lookup still to make; one that is yet to start needs a handler
      that reads for k. */
  ghost predicate BeforeLookup(s: State, t: nat, k: Imei) {
    if t < |s.tasks| then s.tasks[t] == Check(k) || s.tasks[t] == Lookup(k) else Publisher(s, k)
  }

  ghost predicate Exposed(s: State, t: nat, k: Imei) {
    Overtakes(s, t, k) || (Listed(s, k) && BeforeLookup(s, t, k))
  }

  // ----- only those -----

  /** Goroutines refer to sessions of their own identity. */
  ghost predicate RefersTo(s: State, t: nat)
    requires t < |s.tasks|
  {
    match s.tasks[t]
    case Flag(k, found) => FoundFor(s, found, k)
    case Dial(k, found) => FoundFor(s, found, k)
    case Mark(k, found) => FoundFor(s, found, k)
    case MaybeCheck(k, id) => FoundFor(s, Some(id), k)
    case MaybeDial(k, id) => FoundFor(s, Some(id), k)
    case MaybeMark(k, id) => FoundFor(s, Some(id), k)
    case _ => true
  }

  ghost predicate Refer(s: State) {
    && References(s)
    && forall t :: 0 <= t < |s.tasks| ==> RefersTo(s, t)
  }

  lemma InvRefers(s: State)
    requires Inv(s)
    ensures Refer(s)
  {
    hide SafeTrace, FlagsAreTrue, Connected, LoginsAreLast, TableIsLastLogins, LiveAreListed, References;
    forall t | 0 <= t < |s.tasks| ensures RefersTo(s, t) { assert TaskOk(s, t); }
  }

  lemma DialShows(s: State, t: nat)
    requires t < |s.tasks| && (s.tasks[t].Dial? || s.tasks[t].MaybeDial?)
    ensures !NoConnect(New(s, Advance(t, true)), s.tasks[t].imei)
  {
    assert New(s, Advance(t, true))[0].ConnectOk?;
  }

  lemma AdvanceMarksNothing(s: State, t: nat, answer: bool, id: nat)
    requires t < |s.tasks| && RefersTo(s, t) && id < |s.sessions| && !Marks(s.tasks[t], id)
    requires NoConnect(New(s, Advance(t, answer)), s.sessions[id].imei)
    ensures !Marks(DoAdvance(s, t, answer).tasks[t], id)
    ensures DoAdvance(s, t, answer).sessions[id].tbConnected == s.sessions[id].tbConnected
  {
    if (s.tasks[t].Dial? || s.tasks[t].MaybeDial?) && answer { DialShows(s, t); }
  }

  lemma MarkableStays(s: State, step: Step, id: nat)
    requires Refer(s) && id < |s.sessions| && !Markable(s, id) && NoConnect(New(s, step), s.sessions[id].imei)
    ensures !Markable(Apply(s, step), id)
  {
    if step.Advance? && step.t < |s.tasks| {
      assert RefersTo(s, step.t) && !Marks(s.tasks[step.t], id);
      AdvanceMarksNothing(s, step.t, step.answer, id);
      AdvanceMovesOne(s, step.t, step.answer);
    } else {
      OthersOnlyAdd(s, step);
    }
    hide Apply, DoAdvance, New, Refer, NoConnect;
    var u := Apply(s, step);
    forall v | 0 <= v < |u.tasks| ensures !Marks(u.tasks[v], id) {
      if v < |s.tasks| { assert !Marks(s.tasks[v], id); }
    }
  }

  lemma AdvanceMovesOne(s: State, t: nat, answer: bool)
    requires t < |s.tasks|
    ensures |DoAdvance(s, t, answer).tasks| == |s.tasks| && |DoAdvance(s, t, answer).sessions| == |s.sessions|
    ensures forall v :: 0 <= v < |s.tasks| && v != t ==> DoAdvance(s, t, answer).tasks[v] == s.tasks[v]
  {}

  /** Any other step leaves the goroutines and flags there are, and may add a goroutine that has yet
      to ask. */
  lemma OthersOnlyAdd(s: State, step: Step)
    requires !(step.Advance? && step.t < |s.tasks|)
    ensures var u := Apply(s, step);
      && |s.tasks| <= |u.tasks| && (forall v :: 0 <= v < |s.tasks| ==> u.tasks[v] == s.tasks[v])
      && (forall v :: |s.tasks| <= v < |u.tasks| ==> u.tasks[v].Check? || u.tasks[v].MaybeCheck?)
      && |s.sessions| <= |u.sessions| && (forall i :: 0 <= i < |s.sessions| ==> u.sessions[i] == s.sessions[i])
  {}

  lemma ListedStays(s: State, step: Step, k: Imei)
    requires Refer(s) && NoConnect(New(s, step), k) && Listed(Apply(s, step), k)
    ensures Listed(s, k) && !(step.LogIn? && step.imei == k && Apply(s, step) != s)
  {
    var u := Apply(s, step);
    if k !in s.table || u.table[k] != s.table[k] {
      Fresh(s, step);
      assert false;
    }
    if !Markable(s, s.table[k]) { MarkableStays(s, step, s.table[k]); }
  }

  /** A login's session is unmarked. */
  lemma Fresh(s: State, step: Step)
    requires Refer(s)
    ensures !Markable(Apply(s, step), |s.sessions|)
  {
    if step.LogIn? {
      var u := Apply(s, step);
      forall v | 0 <= v < |u.tasks| ensures !Marks(u.tasks[v], |s.sessions|) {
        if v < |s.tasks| { assert RefersTo(s, v); }
      }
    } else {
      SessionsStay(s, step);
    }
  }

  lemma SessionsStay(s: State, step: Step)
    requires !step.LogIn?
    ensures |Apply(s, step).sessions| == |s.sessions|
  {}

  // one step

  lemma OvertakesByAdvance(s: State, t: nat, answer: bool, k: Imei)
    requires t < |s.tasks| && NoConnect(New(s, Advance(t, answer)), k) && Overtakes(DoAdvance(s, t, answer), t, k)
    ensures Exposed(s, t, k)
  {
    var u := DoAdvance(s, t, answer);
    if s.tasks[t].Dial? && answer { DialShows(s, t); }
    if s.tasks[t].Lookup? {
      var id := u.tasks[t].found.value;
      if !s.sessions[id].tbConnected {
        var v :| 0 <= v < |u.tasks| && Marks(u.tasks[v], id);
        assert Marks(s.tasks[v], id);
      }
    }
  }

  lemma OvertakesLate(s: State, step: Step, t: nat, k: Imei)
    requires Refer(s) && NoConnect(New(s, step), k) && Overtakes(Apply(s, step), t, k)
    ensures Exposed(s, t, k)
  {
    if step.Advance? && step.t < |s.tasks| {
      AdvanceMovesOne(s, step.t, step.answer);
      if step.t == t {
        assert RefersTo(s, t);
        OvertakesByAdvance(s, t, step.answer, k);
      }
    } else {
      OthersOnlyAdd(s, step);
    }
    hide Apply, DoAdvance, New, NoConnect;
    var u := Apply(s, step);
    if u.tasks[t].Flag? && t < |s.tasks| && s.tasks[t] == u.tasks[t] {
      assert RefersTo(s, t);
      var id := u.tasks[t].found.value;
      if !Markable(s, id) { MarkableStays(s, step, id); }
    }
  }

  lemma TaskWasBefore(s: State, step: Step, t: nat, k: Imei)
    requires t < |s.tasks|
    ensures t < |Apply(s, step).tasks|
    ensures Apply(s, step).tasks[t] == Check(k) || Apply(s, step).tasks[t] == Lookup(k) ==>
      s.tasks[t] == Check(k) || s.tasks[t] == Lookup(k)
  {}

  lemma NewTask(s: State, step: Step)
    ensures |Apply(s, step).tasks| <= |s.tasks| + 1
    ensures |Apply(s, step).tasks| == |s.tasks| + 1 && !Apply(s, step).tasks[|s.tasks|].MaybeCheck? ==>
      && step.StartPublish? && step.c < |s.conns| && s.conns[step.c].phase == Reading && s.conns[step.c].login.Some?
      && Apply(s, step).tasks[|s.tasks|] == Check(s.conns[step.c].login.value.imei)
  {}

  lemma BeforeLookupLate(s: State, step: Step, t: nat, k: Imei)
    requires Refer(s) && BeforeLookup(Apply(s, step), t, k) && !(step.LogIn? && step.imei == k && Apply(s, step) != s)
    ensures BeforeLookup(s, t, k)
  {
    hide Publisher, Apply, Refer;
    if t < |s.tasks| {
      TaskWasBefore(s, step, t, k);
    } else if t >= |Apply(s, step).tasks| {
      PublisherLate(s, step, k);
    } else {
      NewTask(s, step);
      StartedByPublisher(s, step.c);
    }
  }

  lemma StartedByPublisher(s: State, c: nat)
    requires c < |s.conns| && s.conns[c].phase == Reading && s.conns[c].login.Some?
    ensures Publisher(s, s.conns[c].login.value.imei)
  {}

  lemma PublisherLate(s: State, step: Step, k: Imei)
    requires Publisher(Apply(s, step), k) && !(step.LogIn? && step.imei == k && Apply(s, step) != s)
    ensures Publisher(s, k)
  {
    var u := Apply(s, step);
    if !(step.LogIn? && u == s) {
      var c :| 0 <= c < |u.conns| && u.conns[c].phase == Reading && u.conns[c].login.Some? && u.conns[c].login.value.imei == k;
      assert c < |s.conns| && s.conns[c].phase == Reading && s.conns[c].login == u.conns[c].login;
    }
  }

  lemma ExposureIsOld(s: State, step: Step, t: nat, k: Imei)
    requires Refer(s) && NoConnect(New(s, step), k) && Exposed(Apply(s, step), t, k)
    ensures Exposed(s, t, k)
  {
    hide Refer, Overtakes, Listed, BeforeLookup, New;
    if Overtakes(Apply(s, step), t, k) {
      OvertakesLate(s, step, t, k);
    } else {
      ListedStays(s, step, k);
      BeforeLookupLate(s, step, t, k);
    }
  }

  lemma PublishIsExposed(s: State, step: Step, j: nat, t: nat, k: Imei)
    requires j < |New(s, step)| && New(s, step)[j] == Publish(t, k)
    ensures Exposed(s, t, k)
  {
    assert Overtakes(s, t, k);
  }

  lemma NoConnectParts(a: seq<Event>, b: seq<Event>, k: Imei)
    ensures NoConnect(a + b, k) <==> NoConnect(a, k) && NoConnect(b, k)
  {
    forall i | 0 <= i < |b| ensures (a + b)[|a| + i] == b[i] {}
    if NoConnect(a + b, k) {
      forall i | 0 <= i < |a| ensures !(a[i].ConnectOk? && a[i].imei == k) { assert (a + b)[i] == a[i]; }
      forall i | 0 <= i < |b| ensures !(b[i].ConnectOk? && b[i].imei == k) { assert (a + b)[|a| + i] == b[i]; }
    }
  }

  lemma {:induction false} OnlyTheExposed(s: State, steps: seq<Step>, t: nat, k: Imei)
    requires Inv(s) && Unannounced(Emitted(s, steps), t, k)
    ensures Exposed(s, t, k)
    decreases |steps|
  {
    hide Inv, Exposed, NoConnect, New, Apply;
    var events := Emitted(s, steps);
    var j :| 0 <= j < |events| && events[j] == Publish(t, k) && NoConnect(events[..j], k);
    var first, more := New(s, steps[0]), Emitted(Apply(s, steps[0]), steps[1..]);
    if j < |first| {
      PublishIsExposed(s, steps[0], j, t, k);
    } else {
      assert events[..j] == first + more[..j - |first|];
      NoConnectParts(first, more[..j - |first|], k);
      assert more[j - |first|] == Publish(t, k);
      InvRefers(s);
      StepKeepsInv(s, steps[0]);
      OnlyTheExposed(Apply(s, steps[0]), steps[1..], t, k);
      ExposureIsOld(s, steps[0], t, k);
    }
  }

  // ----- all of those -----

  lemma Later(s: State, step: Step, steps: seq<Step>, t: nat, k: Imei)
    requires Unannounced(Emitted(Apply(s, step), steps), t, k) && NoConnect(New(s, step), k)
    ensures Unannounced(Emitted(s, [step] + steps), t, k)
  {
    hide Apply, New, NoConnect;
    assert ([step] + steps)[1..] == steps;
    var first, more := New(s, step), Emitted(Apply(s, step), steps);
    var j :| 0 <= j < |more| && more[j] == Publish(t, k) && NoConnect(more[..j], k);
    NoConnectParts(first, more[..j], k);
    assert (first + more)[..|first| + j] == first + more[..j];
    assert (first + more)[|first| + j] == Publish(t, k);
  }

  lemma FromSend(s: State, t: nat, k: Imei) returns (steps: seq<Step>)
    requires t < |s.tasks| && s.tasks[t] == Send(k)
    ensures Unannounced(Emitted(s, steps), t, k)
  {
    steps := [Advance(t, true)];
    assert Emitted(s, steps) == [Publish(t, k)];
    assert Emitted(s, steps)[0] == Publish(t, k);
  }

  /** A step that says nothing about connects, and then the rest. */
  lemma FromMark(s: State, t: nat, k: Imei) returns (steps: seq<Step>)
    requires t < |s.tasks| && s.tasks[t].Mark? && s.tasks[t].imei == k
    ensures Unannounced(Emitted(s, steps), t, k)
  {
    var more := FromSend(Apply(s, Advance(t, true)), t, k);
    Later(s, Advance(t, true), more, t, k);
    steps := [Advance(t, true)] + more;
  }

  lemma FromFlag(s: State, t: nat, k: Imei, id: nat) returns (steps: seq<Step>)
    requires t < |s.tasks| && s.tasks[t] == Flag(k, Some(id)) && Markable(s, id)
    ensures Unannounced(Emitted(s, steps), t, k)
  {
    if s.sessions[id].tbConnected {
      var more := FromSend(Apply(s, Advance(t, true)), t, k);
      Later(s, Advance(t, true), more, t, k);
      steps := [Advance(t, true)] + more;
    } else {
      var u: nat :| u < |s.tasks| && Marks(s.tasks[u], id);
      var s1 := Apply(s, Advance(u, true));
      assert s1.tasks[t] == Flag(k, Some(id)) && s1.sessions[id].tbConnected;
      var more := FromSend(Apply(s1, Advance(t, true)), t, k);
      Later(s1, Advance(t, true), more, t, k);
      Later(s, Advance(u, true), [Advance(t, true)] + more, t, k);
      steps := [Advance(u, true)] + ([Advance(t, true)] + more);
    }
  }

  lemma StillMarkable(s: State, t: nat, task: Task, events: seq<Event>, id: nat)
    requires t < |s.tasks| && (s.tasks[t].Check? || s.tasks[t].Lookup?) && Markable(s, id)
    ensures Markable(Move(s, t, task, events), id)
  {
    if !s.sessions[id].tbConnected {
      var u: nat :| u < |s.tasks| && Marks(s.tasks[u], id);
      assert Marks(Move(s, t, task, events).tasks[u], id);
    }
  }

  lemma FromLookup(s: State, t: nat, k: Imei) returns (steps: seq<Step>)
    requires t < |s.tasks| && s.tasks[t] == Lookup(k) && Listed(s, k)
    ensures Unannounced(Emitted(s, steps), t, k)
  {
    StillMarkable(s, t, Flag(k, Some(s.table[k])), [], s.table[k]);
    var more := FromFlag(Apply(s, Advance(t, true)), t, k, s.table[k]);
    Later(s, Advance(t, true), more, t, k);
    steps := [Advance(t, true)] + more;
  }

  lemma FromCheck(s: State, t: nat, k: Imei) returns (steps: seq<Step>)
    requires t < |s.tasks| && s.tasks[t] == Check(k) && Listed(s, k)
    ensures Unannounced(Emitted(s, steps), t, k)
  {
    StillMarkable(s, t, Lookup(k), [Allowed(t, k)], s.table[k]);
    var more := FromLookup(Apply(s, Advance(t, true)), t, k);
    Later(s, Advance(t, true), more, t, k);
    steps := [Advance(t, true)] + more;
  }

  /** Handlers can start any number of goroutines before the one in question. */
  lemma {:induction false} FromPublisher(s: State, t: nat, k: Imei) returns (steps: seq<Step>)
    requires t >= |s.tasks| && Publisher(s, k) && Listed(s, k)
    ensures Unannounced(Emitted(s, steps), t, k)
    decreases t - |s.tasks|
  {
    var c: nat :| c < |s.conns| && s.conns[c].phase == Reading
                  && s.conns[c].login.Some? && s.conns[c].login.value.imei == k;
    var s1 := Apply(s, StartPublish(c));
    assert Listed(s1, k) by { MarkableWithMore(s, Check(k), s.table[k]); }
    var more;
    if t == |s.tasks| {
      more := FromCheck(s1, t, k);
    } else {
      assert s1.conns[c].phase == Reading;
      more := FromPublisher(s1, t, k);
    }
    Later(s, StartPublish(c), more, t, k);
    steps := [StartPublish(c)] + more;
  }

  lemma MarkableWithMore(s: State, task: Task, id: nat)
    requires Markable(s, id)
    ensures Markable(s.(tasks := s.tasks + [task]), id)
  {
    if !s.sessions[id].tbConnected {
      var u: nat :| u < |s.tasks| && Marks(s.tasks[u], id);
      assert Marks((s.tasks + [task])[u], id);
    }
  }

  lemma AllTheExposed(s: State, t: nat, k: Imei) returns (steps: seq<Step>)
    requires Exposed(s, t, k)
    ensures Unannounced(Emitted(s, steps), t, k)
  {
    hide Unannounced, Apply;
    if t >= |s.tasks| {
      steps := FromPublisher(s, t, k);
    } else if s.tasks[t].Send? {
      steps := FromSend(s, t, k);
    } else if s.tasks[t].Mark? {
      steps := FromMark(s, t, k);
    } else if s.tasks[t].Flag? {
      steps := FromFlag(s, t, k, s.tasks[t].found.value);
    } else if s.tasks[t].Lookup? {
      steps := FromLookup(s, t, k);
    } else {
      steps := FromCheck(s, t, k);
    }
  }

  // ----- the condition -----

  /** From any reachable state, goroutine t can still publish for k without anyone connecting k first
      if and only if it is exposed: past its table lookup with nothing left to connect; or before it,
      or yet to be started by a handler reading for k, while the table names a session that counts
      as connected. */
  lemma UnannouncedIffExposed(steps: seq<Step>, t: nat, k: Imei)
    ensures var s := Run(INIT, steps);
      (exists more :: Unannounced(Emitted(s, more), t, k)) <==> Exposed(s, t, k)
  {
    hide Exposed, Unannounced, Run;
    var s := Run(INIT, steps);
    Reachable(steps);
    if more :| Unannounced(Emitted(s, more), t, k) { OnlyTheExposed(s, more, t, k); }
    if Exposed(s, t, k) { var more := AllTheExposed(s, t, k); }
  }

  // ----- trackers that stay on one connection -----

  /** Only connection c has registered k. */
  predicate SoleConnection(sessions: seq<Session>, k: Imei, c: nat) {
    forall i :: 0 <= i < |sessions| && sessions[i].imei == k ==> sessions[i].conn == c
  }

  /** The connection that k is logged in on has removed its session. */
  predicate Left(s: State, k: Imei, c: nat) {
    c < |s.conns| && PastRemoval(s.conns[c].phase) && s.conns[c].login.Some? && s.conns[c].login.value.imei == k
  }

  lemma NotListed(s: State, k: Imei, c: nat)
    requires Inv(s) && SoleConnection(s.sessions, k, c) && Left(s, k, c)
    ensures k !in s.table && !Listed(s, k)
  {
    var last := LastFor(s.sessions, k);
    if last != -1 {
      assert s.sessions[last].conn == c;
      assert LastBy(s.sessions, c) == s.conns[c].login.value.sess == last;
      assert Retired(s, last);
    }
  }

  /** Once the only connection that has registered k is gone, telemetry for k without a new connect
      can come from exactly the goroutines that were past their table lookup, whatever happens next,
      another connection for k included. */
  lemma AfterSoleConnection(steps: seq<Step>, c: nat, t: nat, k: Imei)
    requires var s := Run(INIT, steps); SoleConnection(s.sessions, k, c) && Left(s, k, c)
    ensures var s := Run(INIT, steps);
      (exists more :: Unannounced(Emitted(s, more), t, k)) <==> Overtakes(s, t, k)
  {
    var s := Run(INIT, steps);
    Reachable(steps);
    NotListed(s, k, c);
    UnannouncedIffExposed(steps, t, k);
  }

  // ----- the same on the trace of a run -----

  lemma EmittedFirst(s: State, step: Step, steps: seq<Step>)
    ensures Emitted(s, [step] + steps) == New(s, step) + Emitted(Apply(s, step), steps)
  {
    hide Apply, New;
    assert ([step] + steps)[1..] == steps;
  }

  /** The i-th event is emitted by `step`, after the steps in `a` and before those in `b`. */
  predicate EmittedBy(s: State, steps: seq<Step>, i: nat, a: seq<Step>, step: Step, b: seq<Step>) {
    && i < |Emitted(s, steps)| && steps == a + [step] + b
    && New(Run(s, a), step) == [Emitted(s, steps)[i]]
    && Emitted(Apply(Run(s, a), step), b) == Emitted(s, steps)[i + 1..]
  }

  lemma EmittedAtOnce(s: State, first: Step, rest: seq<Step>)
    requires New(s, first) != []
    ensures EmittedBy(s, [first] + rest, 0, [], first, rest)
  {
    AtMostOne(s, first);
    EmittedFirst(s, first, rest);
    hide Apply, New, Emitted;
    assert [] + [first] + rest == [first] + rest;
  }

  lemma EmittedLater(s: State, first: Step, rest: seq<Step>, i: nat, a: seq<Step>, step: Step, b: seq<Step>)
    requires |New(s, first)| <= i && EmittedBy(Apply(s, first), rest, i - |New(s, first)|, a, step, b)
    ensures EmittedBy(s, [first] + rest, i, [first] + a, step, b)
  {
    hide Apply, New, Emitted, Run;
    EmittedFirst(s, first, rest);
    RunStep(s, first, a);
    DropAfter(New(s, first), Emitted(Apply(s, first), rest), i);
    Regroup(first, a, step, b);
  }

  /** The step that emits the i-th event. */
  lemma {:induction false} EmittingStep(s: State, steps: seq<Step>, i: nat) returns (a: seq<Step>, step: Step, b: seq<Step>)
    requires i < |Emitted(s, steps)|
    ensures EmittedBy(s, steps, i, a, step, b)
    decreases |steps|
  {
    var first, rest := steps[0], steps[1..];
    assert steps == [first] + rest;
    EmittedFirst(s, first, rest);
    AtMostOne(s, first);
    hide Apply, New, Emitted, EmittedBy;
    if i < |New(s, first)| {
      EmittedAtOnce(s, first, rest);
      a, step, b := [], first, rest;
    } else {
      a, step, b := EmittingStep(Apply(s, first), rest, i - |New(s, first)|);
      EmittedLater(s, first, rest, i, a, step, b);
      a := [first] + a;
    }
  }

  lemma DropAfter(x: seq<Event>, y: seq<Event>, i: nat)
    requires |x| <= i < |x + y|
    ensures (x + y)[i + 1..] == y[i - |x| + 1..] && (x + y)[i] == y[i - |x|]
  {}

  lemma Regroup(first: Step, a: seq<Step>, step: Step, b: seq<Step>)
    ensures [first] + (a + [step] + b) == ([first] + a) + [step] + b
  {}

  lemma AtMostOne(s: State, step: Step)
    ensures |New(s, step)| <= 1
  {}

  predicate OwnersKept(s: State, u: State) {
    |s.sessions| <= |u.sessions|
    && forall i :: 0 <= i < |s.sessions| ==>
         u.sessions[i].imei == s.sessions[i].imei && u.sessions[i].conn == s.sessions[i].conn
  }

  lemma AdvanceKeepsOwners(s: State, t: nat, answer: bool)
    requires t < |s.tasks|
    ensures OwnersKept(s, DoAdvance(s, t, answer))
  {}

  lemma OwnersStay(s: State, step: Step)
    ensures OwnersKept(s, Apply(s, step))
  {
    if step.Advance? && step.t < |s.tasks| {
      AdvanceKeepsOwners(s, step.t, step.answer);
    } else {
      OthersOnlyAdd(s, step);
    }
    hide DoAdvance;
  }

  lemma {:induction false} SoleFromTheStart(s: State, steps: seq<Step>, k: Imei, c: nat)
    requires SoleConnection(Run(s, steps).sessions, k, c)
    ensures SoleConnection(s.sessions, k, c)
    decreases |steps|
  {
    hide Apply;
    if steps != [] {
      SoleFromTheStart(Apply(s, steps[0]), steps[1..], k, c);
      OwnersStay(s, steps[0]);
    }
  }

  lemma HungUp(s: State, step: Step, c: nat, k: Imei)
    requires New(s, step) == [Disconnect(c, k)]
    ensures Left(Apply(s, step), k, c)
  {}

  /** From a state that k's only connection has left. */
  lemma LateFrom(a: seq<Step>, b: seq<Step>, m: nat, t: nat, k: Imei, c: nat)
    requires var s := Run(INIT, a);
      && m < |Emitted(s, b)| && Emitted(s, b)[m] == Publish(t, k) && NoConnect(Emitted(s, b)[..m], k)
      && Left(s, k, c) && SoleConnection(Run(s, b).sessions, k, c)
    ensures Overtakes(Run(INIT, a), t, k)
  {
    hide Run, Apply, New, Overtakes, Listed, Left, SoleConnection, NoConnect, Emitted, Inv;
    var s := Run(INIT, a);
    SoleFromTheStart(s, b, k, c);
    Reachable(a);
    NotListed(s, k, c);
    OnlyTheExposed(s, b, t, k);
  }

  /** In every run in which k keeps to one connection: a publish for k behind a disconnect, with no
      successful connect for k between them, comes from a goroutine that existed when the disconnect
      was made and stood past its table lookup. */
  lemma LatePublish(steps: seq<Step>, i: nat, j: nat) returns (a: seq<Step>, b: seq<Step>)
    requires var s := Run(INIT, steps);
      && i < j < |s.trace| && s.trace[i].Disconnect? && s.trace[j].Publish? && s.trace[i].imei == s.trace[j].imei
      && NoConnect(s.trace[i + 1..j], s.trace[i].imei) && SoleConnection(s.sessions, s.trace[i].imei, s.trace[i].c)
    ensures steps == a + b && |Run(INIT, a).trace| == i + 1
    ensures Overtakes(Run(INIT, a), Run(INIT, steps).trace[j].t, Run(INIT, steps).trace[j].imei)
  {
    hide Run, Apply, New, Overtakes, Left, SoleConnection, NoConnect, Emitted, EmittedBy;
    var trace := Run(INIT, steps).trace;
    var c, t, k := trace[i].c, trace[j].t, trace[j].imei;
    assert trace[i] == Disconnect(c, k) && trace[j] == Publish(t, k);
    TraceIsEmitted(steps);
    var before, step;
    before, step, b := EmittingStep(INIT, steps, i);
    a := before + [step];
    AfterEmitting(steps, i, before, step, b);
    HungUp(Run(INIT, before), step, c, k);
    SliceOf(trace, i, j);
    LateFrom(a, b, j - i - 1, t, k, c);
  }

  lemma TraceIsEmitted(steps: seq<Step>)
    ensures Run(INIT, steps).trace == Emitted(INIT, steps)
  {
    hide Run, Emitted;
    RunAdds(INIT, steps);
  }

  lemma AfterEmitting(steps: seq<Step>, i: nat, before: seq<Step>, step: Step, b: seq<Step>)
    requires EmittedBy(INIT, steps, i, before, step, b)
    ensures var a, trace := before + [step], Run(INIT, steps).trace;
      && steps == a + b && Run(INIT, steps) == Run(Run(INIT, a), b)
      && Run(INIT, a) == Apply(Run(INIT, before), step) && i < |trace| && New(Run(INIT, before), step) == [trace[i]]
      && |Run(INIT, a).trace| == i + 1 && Emitted(Run(INIT, a), b) == trace[i + 1..]
  {
    hide Run, Apply, New, Emitted;
    RunAdds(INIT, steps);
    RunSnoc(INIT, before, step);
    RunConcat(INIT, before + [step], b);
    RunAdds(Run(INIT, before + [step]), b);
  }

  lemma SliceOf(trace: seq<Event>, i: nat, j: nat)
    requires i < j < |trace|
    ensures trace[i + 1..][j - i - 1] == trace[j] && trace[i + 1..][..j - i - 1] == trace[i + 1..j]
  {}
}
