/** One client shared by several threads. `call` talks to the server under a lock, but after a failure it closes the
    socket outside the lock, so another caller can come in between and read a reply that is not its own.
    Handlers answer the requests of a connection in order (Protocol.ServeAnswersInOrder), so a
    reply is named here by the request it answers. */
module SharedClient {
  import opened Values

  /** `ahead` is history: how many requests on the connection had replies still to be read when this one was sent. */
  datatype Request = Request(id: nat, caller: nat, ahead: nat)

  /** Requests in the order sent; how many are answered, how many of the replies are read, and whether part of the next
      one is: decoding that starts inside a reply never gives a message (Protocol.InsideFrameNeverDecodes). */
  datatype Connection = Connection(requests: seq<Request>, answered: nat, read: nat, torn: bool)

  datatype Phase =
    | Idle
    | Entering                                // at the top of the retry loop, before the lock
    | Locked
    | Waiting(request: Request, conn: nat)    // holding the lock, before decoding the response
    | Failed                                  // out of the lock with an exception, before `close`

  datatype Result = Result(request: Request, reply: Request)

  datatype State = State(
    conns: seq<Connection>, socket: Option<nat>, lock: Option<nat>, phases: seq<Phase>, sent: nat, returned: seq<Result>
  )

  function Start(callers: nat): State {
    var phases: seq<Phase> := seq(callers, (c: nat) => Idle);
    State([], None, None, phases, 0, [])
  }

  // ---------- steps of a caller ----------

  predicate In(s: State, c: nat, p: Phase) {
    c < |s.phases| && s.phases[c] == p
  }

  predicate Enter(s: State, s': State, c: nat) {
    In(s, c, Idle) && s' == s.(phases := s.phases[c := Entering])
  }

  predicate Acquire(s: State, s': State, c: nat) {
    In(s, c, Entering) && s.lock.None? && s' == s.(lock := Some(c), phases := s.phases[c := Locked])
  }

  predicate Connect(s: State, s': State, c: nat) {
    In(s, c, Locked) && s.socket.None?
    && s' == s.(conns := s.conns + [Connection([], 0, 0, false)], socket := Some(|s.conns|))
  }

  function NewRequest(s: State, c: nat, i: nat): Request
    requires i < |s.conns| && s.conns[i].read <= |s.conns[i].requests|
  {
    Request(s.sent, c, |s.conns[i].requests| - s.conns[i].read)
  }

  predicate Send(s: State, s': State, c: nat) {
    In(s, c, Locked) && s.socket.Some? && s.socket.value < |s.conns|
    && var i := s.socket.value;
      s.conns[i].read <= |s.conns[i].requests|
      && var request := NewRequest(s, c, i);
        s' == s.(conns := s.conns[i := s.conns[i].(requests := s.conns[i].requests + [request])],
          phases := s.phases[c := Waiting(request, i)], sent := s.sent + 1)
  }

  /** A timeout or a broken connection before anything is read, inside the lock. */
  predicate Fail(s: State, s': State, c: nat) {
    c < |s.phases| && (s.phases[c].Locked? || s.phases[c].Waiting?)
    && s' == s.(lock := None, phases := s.phases[c := Failed])
  }

  /** A failed decoding may have read any whole replies, and part of the next one. */
  predicate FailReading(s: State, s': State, c: nat, read: nat, torn: bool) {
    c < |s.phases| && s.phases[c].Waiting? && s.phases[c].conn < |s.conns|
    && var i := s.phases[c].conn;
      s.conns[i].read <= read <= s.conns[i].answered && (torn ==> read < s.conns[i].answered)
      && s' == s.(conns := s.conns[i := s.conns[i].(read := read, torn := torn)], lock := None,
        phases := s.phases[c := Failed])
  }

  /** Any other exception before the request is sent. */
  predicate Raise(s: State, s': State, c: nat) {
    In(s, c, Locked) && s' == s.(lock := None, phases := s.phases[c := Idle])
  }

  predicate CanReceive(s: State, c: nat) {
    c < |s.phases| && s.phases[c].Waiting? && s.phases[c].conn < |s.conns|
    && var conn := s.conns[s.phases[c].conn]; !conn.torn && conn.read < conn.answered <= |conn.requests|
  }

  /** The next reply on the connection is decoded and returned, or, when its `ok` is not true, raised. */
  predicate Receive(s: State, s': State, c: nat, ok: bool) {
    CanReceive(s, c)
    && var request, i := s.phases[c].request, s.phases[c].conn;
      var reply := s.conns[i].requests[s.conns[i].read];
      s' == s.(conns := s.conns[i := s.conns[i].(read := s.conns[i].read + 1)], lock := None,
        phases := s.phases[c := if ok then Idle else Failed],
        returned := s.returned + if ok then [Result(request, reply)] else [])
  }

  /** `close`, then the next attempt or the end of the call. */
  predicate Close(s: State, s': State, c: nat, again: bool) {
    In(s, c, Failed) && s' == s.(socket := None, phases := s.phases[c := if again then Entering else Idle])
  }

  /** A handler answers the next request of its connection. */
  predicate Answer(s: State, s': State, i: nat) {
    i < |s.conns| && s.conns[i].answered < |s.conns[i].requests|
    && s' == s.(conns := s.conns[i := s.conns[i].(answered := s.conns[i].answered + 1)])
  }

  ghost predicate Next(s: State, s': State) {
    || (exists c :: Enter(s, s', c))
    || (exists c :: Acquire(s, s', c))
    || (exists c :: Connect(s, s', c))
    || (exists c :: Send(s, s', c))
    || (exists c :: Fail(s, s', c))
    || (exists c, read, torn :: FailReading(s, s', c, read, torn))
    || (exists c :: Raise(s, s', c))
    || (exists c, ok :: Receive(s, s', c, ok))
    || (exists c, again :: Close(s, s', c, again))
    || (exists i :: Answer(s, s', i))
  }

  ghost predicate Run(callers: nat, run: seq<State>) {
    run != [] && run[0] == Start(callers) && forall i | 0 <= i < |run| - 1 :: Next(run[i], run[i + 1])
  }

  // ---------- the invariant ----------

  predicate ConnectionOk(conn: Connection, sent: nat) {
    conn.read <= conn.answered <= |conn.requests|
    && (forall k | 0 <= k < |conn.requests| :: conn.requests[k].id < sent)
    && (forall k, l | 0 <= k < l < |conn.requests| :: conn.requests[k].id < conn.requests[l].id)
  }

  /** Only the holder of the lock talks; its request is the last on its connection, and no reply was read since. */
  predicate CallerOk(conns: seq<Connection>, lock: Option<nat>, phase: Phase, c: nat) {
    (phase.Locked? || phase.Waiting? <==> lock == Some(c))
    && (phase.Waiting? ==>
          phase.conn < |conns|
          && var conn := conns[phase.conn];
            conn.requests != [] && conn.requests[|conn.requests| - 1] == phase.request
            && phase.request.ahead == |conn.requests| - 1 - conn.read)
  }

  predicate ResultOk(result: Result) {
    result.reply == result.request <==> result.request.ahead == 0
  }

  predicate Invariant(s: State) {
    (forall i | 0 <= i < |s.conns| :: ConnectionOk(s.conns[i], s.sent))
    && (forall c | 0 <= c < |s.phases| :: CallerOk(s.conns, s.lock, s.phases[c], c))
    && (s.socket.Some? ==> s.socket.value < |s.conns|)
    && forall k | 0 <= k < |s.returned| :: ResultOk(s.returned[k])
  }

  // ---------- serialized calls ----------

  predicate NoneFailed(s: State) {
    forall c | 0 <= c < |s.phases| :: s.phases[c] != Failed
  }

  /** Nobody takes the lock while a failed caller has yet to close the socket. */
  ghost predicate Serialized(run: seq<State>) {
    forall i | 0 <= i < |run| - 1 && run[i].lock.None? && run[i + 1].lock.Some? ::
      NoneFailed(run[i])
  }

  /** At most one caller has failed, and then nobody holds the lock. */
  predicate FailuresOk(s: State) {
    (forall c, d | 0 <= c < d < |s.phases| :: s.phases[c] != Failed || s.phases[d] != Failed)
    && (s.lock.Some? ==> NoneFailed(s))
  }

  predicate HolderWaits(s: State) {
    s.lock.Some? && s.lock.value < |s.phases| && s.phases[s.lock.value].Waiting?
  }

  /** Unless a caller has failed, every reply on the socket is read but the one waited for. */
  predicate SocketOk(s: State) {
    (NoneFailed(s) && s.socket.Some? ==>
      s.socket.value < |s.conns|
      && |s.conns[s.socket.value].requests| - s.conns[s.socket.value].read == if HolderWaits(s) then 1 else 0)
    && (HolderWaits(s) ==> s.socket == Some(s.phases[s.lock.value].conn) && s.phases[s.lock.value].request.ahead == 0)
  }

  predicate InStep(s: State) {
    Invariant(s) && FailuresOk(s) && SocketOk(s)
    && forall k | 0 <= k < |s.returned| :: s.returned[k].request.ahead == 0
  }

  // ---------- every step keeps both ----------

  lemma EnterKeeps(s: State, s': State, c: nat)
    requires Invariant(s) && Enter(s, s', c)
    ensures Invariant(s') && (InStep(s) ==> InStep(s'))
  {
    forall d | 0 <= d < |s'.phases| ensures CallerOk(s'.conns, s'.lock, s'.phases[d], d) {
      assert CallerOk(s.conns, s.lock, s.phases[d], d);
    }
    if NoneFailed(s') {
      assert forall d | 0 <= d < |s.phases| :: s'.phases[d] == if d == c then Entering else s.phases[d];
    }
  }

  lemma AcquireKeeps(s: State, s': State, c: nat)
    requires Invariant(s) && Acquire(s, s', c)
    ensures Invariant(s') && (InStep(s) && NoneFailed(s) ==> InStep(s'))
  {
    forall d | 0 <= d < |s'.phases| ensures CallerOk(s'.conns, s'.lock, s'.phases[d], d) {
      assert CallerOk(s.conns, s.lock, s.phases[d], d);
    }
  }

  lemma ConnectKeeps(s: State, s': State, c: nat)
    requires Invariant(s) && Connect(s, s', c)
    ensures Invariant(s') && (InStep(s) ==> InStep(s'))
  {
    forall d | 0 <= d < |s'.phases| ensures CallerOk(s'.conns, s'.lock, s'.phases[d], d) {
      assert CallerOk(s.conns, s.lock, s.phases[d], d);
    }
  }

  lemma SendKeeps(s: State, s': State, c: nat)
    requires Invariant(s) && Send(s, s', c)
    ensures Invariant(s') && (InStep(s) ==> InStep(s'))
  {
    forall d | 0 <= d < |s'.phases| ensures CallerOk(s'.conns, s'.lock, s'.phases[d], d) {
      assert CallerOk(s.conns, s.lock, s.phases[d], d);
    }
  }

  lemma LeaveKeeps(s: State, s': State, c: nat)
    requires Invariant(s) && (Fail(s, s', c) || Raise(s, s', c))
    ensures Invariant(s') && (InStep(s) ==> InStep(s'))
  {
    forall d | 0 <= d < |s'.phases| ensures CallerOk(s'.conns, s'.lock, s'.phases[d], d) {
      assert CallerOk(s.conns, s.lock, s.phases[d], d);
    }
    assert CallerOk(s.conns, s.lock, s.phases[c], c);
    assert s'.phases[c] == Failed || s.phases[c] == Locked;
  }

  lemma FailReadingKeeps(s: State, s': State, c: nat, read: nat, torn: bool)
    requires Invariant(s) && FailReading(s, s', c, read, torn)
    ensures Invariant(s') && (InStep(s) ==> InStep(s'))
  {
    forall d | 0 <= d < |s'.phases| ensures CallerOk(s'.conns, s'.lock, s'.phases[d], d) {
      assert CallerOk(s.conns, s.lock, s.phases[d], d);
    }
    assert CallerOk(s.conns, s.lock, s.phases[c], c);
    assert s'.phases[c] == Failed;
  }

  lemma ReceiveKeeps(s: State, s': State, c: nat, ok: bool)
    requires Invariant(s) && Receive(s, s', c, ok)
    ensures Invariant(s') && (InStep(s) ==> InStep(s'))
  {
    forall d | 0 <= d < |s'.phases| ensures CallerOk(s'.conns, s'.lock, s'.phases[d], d) {
      assert CallerOk(s.conns, s.lock, s.phases[d], d);
    }
    var requests, read := s.conns[s.phases[c].conn].requests, s.conns[s.phases[c].conn].read;
    assert requests[read] == requests[|requests| - 1] ==> read == |requests| - 1;
  }

  lemma CloseKeeps(s: State, s': State, c: nat, again: bool)
    requires Invariant(s) && Close(s, s', c, again)
    ensures Invariant(s') && (InStep(s) ==> InStep(s'))
  {
    forall d | 0 <= d < |s'.phases| ensures CallerOk(s'.conns, s'.lock, s'.phases[d], d) {
      assert CallerOk(s.conns, s.lock, s.phases[d], d);
    }
  }

  lemma AnswerKeeps(s: State, s': State, i: nat)
    requires Invariant(s) && Answer(s, s', i)
    ensures Invariant(s') && (InStep(s) ==> InStep(s'))
  {
    forall d | 0 <= d < |s'.phases| ensures CallerOk(s'.conns, s'.lock, s'.phases[d], d) {
      assert CallerOk(s.conns, s.lock, s.phases[d], d);
    }
  }

  lemma NextKeeps(s: State, s': State)
    requires Invariant(s) && Next(s, s')
    ensures Invariant(s') && (InStep(s) && (s.lock.None? && s'.lock.Some? ==> NoneFailed(s)) ==> InStep(s'))
  {
    hide Invariant, InStep, Enter, Connect, Send, Fail, FailReading, Raise, Receive, Close, Answer;
    if c :| Enter(s, s', c) {
      EnterKeeps(s, s', c);
    } else if c :| Acquire(s, s', c) {
      AcquireKeeps(s, s', c);
    } else if c :| Connect(s, s', c) {
      ConnectKeeps(s, s', c);
    } else if c :| Send(s, s', c) {
      SendKeeps(s, s', c);
    } else if c :| Fail(s, s', c) {
      LeaveKeeps(s, s', c);
    } else if c, read, torn :| FailReading(s, s', c, read, torn) {
      FailReadingKeeps(s, s', c, read, torn);
    } else if c :| Raise(s, s', c) {
      LeaveKeeps(s, s', c);
    } else if c, ok :| Receive(s, s', c, ok) {
      ReceiveKeeps(s, s', c, ok);
    } else if c, again :| Close(s, s', c, again) {
      CloseKeeps(s, s', c, again);
    } else {
      var i :| Answer(s, s', i);
      AnswerKeeps(s, s', i);
    }
  }

  lemma {:induction false} RunKeeps(callers: nat, run: seq<State>, i: nat)
    requires Run(callers, run) && i < |run|
    ensures Invariant(run[i]) && (Serialized(run) ==> InStep(run[i]))
  {
    if i > 0 {
      RunKeeps(callers, run, i - 1);
      NextKeeps(run[i - 1], run[i]);
    }
  }

  // ---------- main results ----------

  /** Whatever the callers do, a call returns the answer to its own request exactly when every request
      sent on the connection before had its reply read by then. */
  lemma OwnReplyIffNoneAhead(callers: nat, run: seq<State>, i: nat, result: Result)
    requires Run(callers, run) && i < |run| && result in run[i].returned
    ensures result.reply == result.request <==> result.request.ahead == 0
  {
    RunKeeps(callers, run, i);
  }

  /** When no call takes the lock between another's failure and its close, every call returns its own answer. */
  lemma SerializedCallsCorrelate(callers: nat, run: seq<State>, i: nat, result: Result)
    requires Run(callers, run) && Serialized(run) && i < |run| && result in run[i].returned
    ensures result.reply == result.request
  {
    RunKeeps(callers, run, i);
  }

  /** Any steps after a run. */
  lemma Continued(callers: nat, run: seq<State>, steps: seq<State>)
    requires Run(callers, run) && steps != [] && steps[0] == run[|run| - 1]
    requires forall i | 0 <= i < |steps| - 1 :: Next(steps[i], steps[i + 1])
    ensures Run(callers, run + steps[1..])
    ensures Serialized(run) && Serialized(steps) ==> Serialized(run + steps[1..])
  {
    hide Next, NoneFailed;
    var more, n := run + steps[1..], |run| - 1;
    assert forall i | 0 <= i <= n :: more[i] == run[i];
    assert forall i | n <= i < |more| :: more[i] == steps[i - n];
  }

  /** The first of two callers sends its request and times out. */
  lemma FirstTimesOut() returns (run: seq<State>)
    ensures Run(2, run) && Serialized(run)
    ensures run[|run| - 1] == State([Connection([Request(0, 0, 0)], 0, 0, false)], Some(0), None, [Failed, Idle], 1, [])
  {
    var first := Request(0, 0, 0);
    var s0 := Start(2);
    var s1 := s0.(phases := [Entering, Idle]);
    var s2 := s1.(lock := Some(0), phases := [Locked, Idle]);
    var s3 := s2.(conns := [Connection([], 0, 0, false)], socket := Some(0));
    var s4 := s3.(conns := [Connection([first], 0, 0, false)], phases := [Waiting(first, 0), Idle], sent := 1);
    var s5 := s4.(lock := None, phases := [Failed, Idle]);
    assert Enter(s0, s1, 0);
    assert Acquire(s1, s2, 0);
    assert Connect(s2, s3, 0);
    assert [] + [first] == [first];
    assert Send(s3, s4, 0);
    assert Fail(s4, s5, 0);
    assert NoneFailed(s1);
    run := [s0, s1, s2, s3, s4, s5];
  }

  /** One caller times out; before it closes the socket another sends on it, and reads the first one's late reply. */
  lemma LateReplyMisread() returns (run: seq<State>)
    ensures Run(2, run)
    ensures var returned := run[|run| - 1].returned;
      |returned| == 1 && returned[0].request.caller == 1 && returned[0].reply.caller == 0
  {
    var first, second := Request(0, 0, 0), Request(1, 1, 1);
    run := FirstTimesOut();
    var s5 := run[|run| - 1];
    var s6 := s5.(phases := [Failed, Entering]);
    var s7 := s6.(lock := Some(1), phases := [Failed, Locked]);
    var s8 := s7.(conns := [Connection([first, second], 0, 0, false)], phases := [Failed, Waiting(second, 0)],
      sent := 2);
    var s9 := s8.(conns := [Connection([first, second], 1, 0, false)]);
    var s10 := s9.(conns := [Connection([first, second], 1, 1, false)], lock := None, phases := [Failed, Idle],
      returned := [Result(second, first)]);
    assert Enter(s5, s6, 1);
    assert Acquire(s6, s7, 1);
    assert [first] + [second] == [first, second];
    assert Send(s7, s8, 1);
    assert Answer(s8, s9, 0);
    assert Receive(s9, s10, 1, true);
    Continued(2, run, [s5, s6, s7, s8, s9, s10]);
    run := run + [s5, s6, s7, s8, s9, s10][1..];
  }

  /** What may fail: a caller before its request is sent or while it waits, with any whole replies read, and part of the
      next one; and a reply may be read and raised. */
  lemma AnythingMayFail(s: State, c: nat, read: nat, torn: bool)
    requires c < |s.phases|
    ensures s.phases[c].Locked? ==> Next(s, s.(lock := None, phases := s.phases[c := Idle]))
    ensures s.phases[c].Locked? || s.phases[c].Waiting? ==> Next(s, s.(lock := None, phases := s.phases[c := Failed]))
    ensures s.phases[c].Waiting? && s.phases[c].conn < |s.conns| ==>
      var i := s.phases[c].conn;
      s.conns[i].read <= read <= s.conns[i].answered && (torn ==> read < s.conns[i].answered) ==>
        Next(s, s.(conns := s.conns[i := s.conns[i].(read := read, torn := torn)], lock := None,
          phases := s.phases[c := Failed]))
    ensures CanReceive(s, c) ==>
      var i := s.phases[c].conn;
      Next(s, s.(conns := s.conns[i := s.conns[i].(read := s.conns[i].read + 1)], lock := None,
        phases := s.phases[c := Failed]))
  {
    if s.phases[c].Locked? { assert Raise(s, s.(lock := None, phases := s.phases[c := Idle]), c); }
    if s.phases[c].Locked? || s.phases[c].Waiting? {
      assert Fail(s, s.(lock := None, phases := s.phases[c := Failed]), c);
    }
    if s.phases[c].Waiting? && s.phases[c].conn < |s.conns| {
      var i := s.phases[c].conn;
      var s' := s.(conns := s.conns[i := s.conns[i].(read := read, torn := torn)], lock := None,
        phases := s.phases[c := Failed]);
      if s.conns[i].read <= read <= s.conns[i].answered && (torn ==> read < s.conns[i].answered) {
        assert FailReading(s, s', c, read, torn);
      }
    }
    if CanReceive(s, c) {
      var i := s.phases[c].conn;
      var s' := s.(conns := s.conns[i := s.conns[i].(read := s.conns[i].read + 1)], lock := None,
        phases := s.phases[c := Failed]);
      assert s.returned + [] == s.returned;
      assert Receive(s, s', c, false);
    }
  }

  /** A serialized run: the first call times out and is closed before the second, which returns its own answer. */
  lemma SerializedRun() returns (run: seq<State>)
    ensures Run(2, run) && Serialized(run)
    ensures var returned := run[|run| - 1].returned;
      |returned| == 1 && returned[0].request.caller == returned[0].reply.caller == 1
  {
    var first, second := Request(0, 0, 0), Request(1, 1, 0);
    run := FirstTimesOut();
    var s5 := run[|run| - 1];
    var s6 := s5.(socket := None, phases := [Idle, Idle]);
    var s7 := s6.(phases := [Idle, Entering]);
    var s8 := s7.(lock := Some(1), phases := [Idle, Locked]);
    var s9 := s8.(conns := [Connection([first], 0, 0, false), Connection([], 0, 0, false)], socket := Some(1));
    var s10 := s9.(conns := [Connection([first], 0, 0, false), Connection([second], 0, 0, false)],
      phases := [Idle, Waiting(second, 1)], sent := 2);
    var s11 := s10.(conns := [Connection([first], 0, 0, false), Connection([second], 1, 0, false)]);
    var s12 := s11.(conns := [Connection([first], 0, 0, false), Connection([second], 1, 1, false)], lock := None,
      phases := [Idle, Idle], returned := [Result(second, second)]);
    assert Close(s5, s6, 0, false);
    assert Enter(s6, s7, 1);
    assert Acquire(s7, s8, 1);
    assert Connect(s8, s9, 1);
    assert [] + [second] == [second];
    assert Send(s9, s10, 1);
    assert Answer(s10, s11, 1);
    assert Receive(s11, s12, 1, true);
    assert NoneFailed(s7);
    hide Next, Run;
    Continued(2, run, [s5, s6, s7, s8, s9, s10, s11, s12]);
    run := run + [s5, s6, s7, s8, s9, s10, s11, s12][1..];
  }
}
