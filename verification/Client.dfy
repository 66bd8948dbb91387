/** A synchronous client, the connections it opens and the handlers behind them, as a step machine.
    The client never compares request ids; it stays in step because it discards the connection on
    every failure. A connection carries whole messages here (Protocol.FramingTheorem), and each
    handler answers its requests one at a time, in order (Protocol.ServeAnswersInOrder). */
module Client {
  import opened Text
  import opened Values
  import Protocol

  type Dispatch<!Db> = Protocol.Dispatch<Db>

  /** One `call`: its operation with the arguments, and how many attempts it may make
      (retries + 1 for an idempotent one, otherwise 1). */
  datatype Call = Call(operation: Document, attempts: nat)

  /** One attempt's request. Ids are fresh: the position among all requests ever made. */
  datatype Request = Request(id: nat, call: nat, operation: Document) {
    function Message(): Document {
      Protocol.Envelope(operation["request_id" := Str(Decimal(id))])
    }
  }

  /** A response and, as history, the request the handler computed it for. */
  datatype Reply = Reply(to: Request, response: Document)

  datatype Connection = Connection(inbox: seq<Request>, outbox: seq<Reply>)

  datatype Phase =
    | Idle
    | Trying(call: nat, left: nat)                    // at the top of the retry loop
    | Waiting(call: nat, left: nat, request: Request) // sent, before decoding the response

  datatype Result = Result(call: nat, reply: Reply)

  /** `conns` holds every connection ever opened; `socket` is the one the client uses. The last four
      fields are history: the calls, the requests made, the requests dispatched with
      their responses, in order, and the results returned. */
  datatype State<Db> = State(
    db: Db, conns: seq<Connection>, socket: Option<nat>, phase: Phase,
    calls: seq<Call>, sent: seq<Request>, served: seq<Reply>, returned: seq<Result>
  )

  function Initial<Db>(db: Db): State<Db> {
    State(db, [], None, Idle, [], [], [], [])
  }

  ghost predicate Succeeded(response: Document) {
    "ok" in response && Truthy(response["ok"])
  }

  // ---------- steps of the client ----------

  ghost predicate StartCall<Db>(s: State<Db>, s': State<Db>, operation: Document, attempts: nat) {
    s.phase.Idle? && attempts > 0
    && s' == s.(calls := s.calls + [Call(operation, attempts)], phase := Trying(|s.calls|, attempts))
  }

  ghost predicate Connect<Db>(s: State<Db>, s': State<Db>) {
    s.phase.Trying? && s.socket.None?
    && s' == s.(conns := s.conns + [Connection([], [])], socket := Some(|s.conns|))
  }

  function NewRequest<Db>(s: State<Db>): Request
    requires s.phase.Trying? && s.phase.call < |s.calls|
  {
    Request(|s.sent|, s.phase.call, s.calls[s.phase.call].operation)
  }

  ghost predicate Send<Db>(s: State<Db>, s': State<Db>) {
    s.phase.Trying? && s.phase.call < |s.calls| && s.socket.Some? && s.socket.value < |s.conns|
    && var i, request := s.socket.value, NewRequest(s);
      s' == s.(sent := s.sent + [request],
        conns := s.conns[i := s.conns[i].(inbox := s.conns[i].inbox + [request])],
        phase := Waiting(s.phase.call, s.phase.left, request))
  }

  /** Any OSError, EOFError or ProtocolError, an `ok` that is not true included: the connection is closed and, while
      attempts are left, the loop goes round again. Whatever was sent on it may still reach its handler. */
  ghost predicate Fail<Db>(s: State<Db>, s': State<Db>) {
    (s.phase.Trying? || s.phase.Waiting?)
    && s' == s.(socket := None, phase := if s.phase.left > 1 then Trying(s.phase.call, s.phase.left - 1) else Idle)
  }

  /** Any other exception before the request is sent leaves the connection as it is. */
  ghost predicate RaiseBeforeSend<Db>(s: State<Db>, s': State<Db>) {
    s.phase.Trying? && s' == s.(phase := Idle)
  }

  function Popped<Db>(s: State<Db>): seq<Connection>
    requires s.socket.Some? && s.socket.value < |s.conns| && s.conns[s.socket.value].outbox != []
  {
    var i := s.socket.value;
    s.conns[i := s.conns[i].(outbox := s.conns[i].outbox[1..])]
  }

  ghost predicate Receive<Db>(s: State<Db>, s': State<Db>) {
    s.phase.Waiting? && s.socket.Some? && s.socket.value < |s.conns| && s.conns[s.socket.value].outbox != []
    && var reply := s.conns[s.socket.value].outbox[0];
      Succeeded(reply.response)
      && s' == s.(conns := Popped(s), phase := Idle, returned := s.returned + [Result(s.phase.call, reply)])
  }

  /** Any other exception once the response was taken off the connection. */
  ghost predicate RaiseAfterReceive<Db>(s: State<Db>, s': State<Db>) {
    s.phase.Waiting? && s.socket.Some? && s.socket.value < |s.conns| && s.conns[s.socket.value].outbox != []
    && s' == s.(conns := Popped(s), phase := Idle)
  }

  // ---------- steps of the handlers and the network ----------

  /** The handler of connection i, open or discarded, answers its next request. */
  ghost predicate Handle<Db>(dispatch: Dispatch<Db>, s: State<Db>, s': State<Db>, i: nat) {
    i < |s.conns| && s.conns[i].inbox != []
    && var request := s.conns[i].inbox[0];
      var (db, response) := Protocol.Answer(dispatch, s.db, request.Message());
      var reply := Reply(request, response);
      s' == s.(db := db, served := s.served + [reply],
        conns := s.conns[i := Connection(s.conns[i].inbox[1..], s.conns[i].outbox + [reply])])
  }

  /** Connection i breaks, or its handler ends: requests not yet read are lost, and any tail of the replies. */
  ghost predicate Break<Db>(s: State<Db>, s': State<Db>, i: nat, kept: nat) {
    i < |s.conns| && kept <= |s.conns[i].outbox|
    && s' == s.(conns := s.conns[i := Connection([], s.conns[i].outbox[..kept])])
  }

  ghost predicate Next<Db(!new)>(dispatch: Dispatch<Db>, s: State<Db>, s': State<Db>) {
    || (exists operation, attempts :: StartCall(s, s', operation, attempts))
    || Connect(s, s')
    || Send(s, s')
    || Fail(s, s')
    || RaiseBeforeSend(s, s')
    || Receive(s, s')
    || RaiseAfterReceive(s, s')
    || (exists i :: Handle(dispatch, s, s', i))
    || (exists i, kept :: Break(s, s', i, kept))
  }

  ghost predicate Run<Db(!new)>(dispatch: Dispatch<Db>, db: Db, run: seq<State<Db>>) {
    run != [] && run[0] == Initial(db) && forall i | 0 <= i < |run| - 1 :: Next(dispatch, run[i], run[i + 1])
  }

  // ---------- the invariant ----------

  /** The database after the dispatched requests. */
  function DbAfter<Db>(dispatch: Dispatch<Db>, db: Db, served: seq<Reply>): Db {
    if served == [] then db else
    Protocol.Answer(dispatch, DbAfter(dispatch, db, served[..|served| - 1]), served[|served| - 1].to.Message()).0
  }

  /** The server's answer to the request: what dispatching it gave on the database at its turn. */
  ghost predicate ServedAt<Db>(dispatch: Dispatch<Db>, db: Db, served: seq<Reply>, k: int) {
    0 <= k < |served|
    && served[k].response == Protocol.Answer(dispatch, DbAfter(dispatch, db, served[..k]), served[k].to.Message()).1
  }

  ghost predicate ServerOk<Db>(dispatch: Dispatch<Db>, db: Db, s: State<Db>) {
    s.db == DbAfter(dispatch, db, s.served)
    && forall k | 0 <= k < |s.served| :: ServedAt(dispatch, db, s.served, k)
  }

  /** A request was made, under its own id. */
  ghost predicate Known<Db>(s: State<Db>, r: Request) {
    r.id < |s.sent| && s.sent[r.id] == r
  }

  ghost predicate WasServed<Db>(s: State<Db>, id: nat) {
    exists k | 0 <= k < |s.served| :: s.served[k].to.id == id
  }

  /** Requests are made for known calls; each one sits in at most one inbox and is dispatched at most once. */
  ghost predicate RequestsOk<Db>(s: State<Db>) {
    (forall i | 0 <= i < |s.sent| :: s.sent[i].id == i && s.sent[i].call < |s.calls|
        && s.sent[i].operation == s.calls[s.sent[i].call].operation)
    && (forall k | 0 <= k < |s.served| :: Known(s, s.served[k].to))
    && (forall k, l | 0 <= k < l < |s.served| :: s.served[k].to.id != s.served[l].to.id)
    && (forall c | 0 <= c < |s.conns| :: |s.conns[c].inbox| <= 1)
    && (forall c | 0 <= c < |s.conns| && s.conns[c].inbox != [] ::
        Known(s, s.conns[c].inbox[0]) && !WasServed(s, s.conns[c].inbox[0].id))
    && (forall c, d | 0 <= c < d < |s.conns| && s.conns[c].inbox != [] && s.conns[d].inbox != [] ::
        s.conns[c].inbox[0].id != s.conns[d].inbox[0].id)
  }

  /** Nothing is under way on the client's connection but the request it waits for. */
  ghost predicate InStep<Db>(s: State<Db>) {
    s.socket.Some? ==>
      s.socket.value < |s.conns|
      && var c := s.conns[s.socket.value];
        if s.phase.Waiting? then
          c == Connection([s.phase.request], [])
          || c == Connection([], [])
          || (c.inbox == [] && |c.outbox| == 1 && c.outbox[0].to == s.phase.request && c.outbox[0] in s.served)
        else c == Connection([], [])
  }

  ghost predicate PhaseOk<Db>(s: State<Db>) {
    match s.phase
    case Idle => true
    case Trying(call, left) => call < |s.calls| && left > 0
    case Waiting(call, left, request) =>
      call < |s.calls| && left > 0 && Known(s, request) && request.call == call && s.socket.Some?
  }

  function Attempts(sent: seq<Request>, call: nat): nat {
    if sent == [] then 0 else Attempts(sent[..|sent| - 1], call) + if sent[|sent| - 1].call == call then 1 else 0
  }

  /** The requests a call may still make. */
  function Reserve(phase: Phase, call: nat): int {
    if phase.Trying? && phase.call == call then phase.left
    else if phase.Waiting? && phase.call == call then phase.left - 1
    else 0
  }

  /** The requests made for a call, and those it may still make, stay within its attempts. */
  ghost predicate BudgetOk<Db>(s: State<Db>, call: nat)
    requires call < |s.calls|
  {
    Attempts(s.sent, call) + Reserve(s.phase, call) <= s.calls[call].attempts
  }

  ghost predicate BudgetsOk<Db>(s: State<Db>) {
    forall call | 0 <= call < |s.calls| :: BudgetOk(s, call)
  }

  ghost predicate ResultsOk<Db>(s: State<Db>) {
    forall k | 0 <= k < |s.returned| ::
      s.returned[k].reply in s.served && s.returned[k].reply.to.call == s.returned[k].call
      && Succeeded(s.returned[k].reply.response)
  }

  ghost predicate Invariant<Db>(dispatch: Dispatch<Db>, db: Db, s: State<Db>) {
    ServerOk(dispatch, db, s) && RequestsOk(s) && InStep(s) && PhaseOk(s) && BudgetsOk(s) && ResultsOk(s)
  }

  // ---------- every step keeps it ----------

  lemma {:induction false} NoAttempts(sent: seq<Request>, call: nat)
    requires forall i | 0 <= i < |sent| :: sent[i].call < call
    ensures Attempts(sent, call) == 0
  {
    if sent != [] { NoAttempts(sent[..|sent| - 1], call); }
  }

  lemma ServerUnchanged<Db>(dispatch: Dispatch<Db>, db: Db, s: State<Db>, s': State<Db>)
    requires ServerOk(dispatch, db, s) && s'.db == s.db && s'.served == s.served
    ensures ServerOk(dispatch, db, s')
  {}

  lemma BudgetsKept<Db>(s: State<Db>, s': State<Db>)
    requires BudgetsOk(s) && s'.calls == s.calls && s'.sent == s.sent
    requires forall call: nat :: Reserve(s'.phase, call) <= Reserve(s.phase, call)
    ensures BudgetsOk(s')
  {
    forall call | 0 <= call < |s'.calls| ensures BudgetOk(s', call) { assert BudgetOk(s, call); }
  }

  lemma StartCallKeeps<Db>(dispatch: Dispatch<Db>, db: Db, s: State<Db>, s': State<Db>, operation: Document,
                           attempts: nat)
    requires Invariant(dispatch, db, s) && StartCall(s, s', operation, attempts)
    ensures Invariant(dispatch, db, s')
  {
    hide ServerOk, BudgetsOk;
    ServerUnchanged(dispatch, db, s, s');
    StartCallBudgets(s, s', operation, attempts);
  }

  lemma StartCallBudgets<Db>(s: State<Db>, s': State<Db>, operation: Document, attempts: nat)
    requires BudgetsOk(s) && RequestsOk(s) && StartCall(s, s', operation, attempts)
    ensures BudgetsOk(s')
  {
    NoAttempts(s.sent, |s.calls|);
    forall call | 0 <= call < |s'.calls| ensures BudgetOk(s', call) {
      if call < |s.calls| { assert BudgetOk(s, call); }
    }
  }

  lemma ConnectKeeps<Db>(dispatch: Dispatch<Db>, db: Db, s: State<Db>, s': State<Db>)
    requires Invariant(dispatch, db, s) && Connect(s, s')
    ensures Invariant(dispatch, db, s')
  {
    hide ServerOk, BudgetsOk;
    ServerUnchanged(dispatch, db, s, s');
    BudgetsKept(s, s');
  }

  lemma SendKeeps<Db>(dispatch: Dispatch<Db>, db: Db, s: State<Db>, s': State<Db>)
    requires Invariant(dispatch, db, s) && Send(s, s')
    ensures Invariant(dispatch, db, s')
  {
    hide ServerOk, BudgetsOk, RequestsOk;
    ServerUnchanged(dispatch, db, s, s');
    SendBudgets(s, s');
    SendRequests(dispatch, db, s, s');
  }

  lemma SendRequests<Db>(dispatch: Dispatch<Db>, db: Db, s: State<Db>, s': State<Db>)
    requires RequestsOk(s) && InStep(s) && Send(s, s')
    ensures RequestsOk(s')
  {
    assert forall k | 0 <= k < |s.served| :: Known(s, s.served[k].to);
    forall c | 0 <= c < |s'.conns| && s'.conns[c].inbox != []
      ensures Known(s', s'.conns[c].inbox[0]) && !WasServed(s', s'.conns[c].inbox[0].id)
    {
      if c != s.socket.value { assert Known(s, s.conns[c].inbox[0]) && !WasServed(s, s.conns[c].inbox[0].id); }
    }
  }

  lemma SendBudgets<Db>(s: State<Db>, s': State<Db>)
    requires BudgetsOk(s) && Send(s, s')
    ensures BudgetsOk(s')
  {
    assert s'.sent[..|s.sent|] == s.sent;
    forall call | 0 <= call < |s'.calls| ensures BudgetOk(s', call) { assert BudgetOk(s, call); }
  }

  lemma FailKeeps<Db>(dispatch: Dispatch<Db>, db: Db, s: State<Db>, s': State<Db>)
    requires Invariant(dispatch, db, s) && (Fail(s, s') || RaiseBeforeSend(s, s'))
    ensures Invariant(dispatch, db, s')
  {
    hide ServerOk, BudgetsOk, RequestsOk;
    ServerUnchanged(dispatch, db, s, s');
    BudgetsKept(s, s');
    RequestsUnchanged(s, s');
  }

  /** Requests stay in order when inboxes only lose entries. */
  lemma RequestsUnchanged<Db>(s: State<Db>, s': State<Db>)
    requires RequestsOk(s) && s'.sent == s.sent && s'.calls == s.calls && s'.served == s.served
      && |s'.conns| == |s.conns|
    requires forall c | 0 <= c < |s.conns| :: s'.conns[c].inbox == s.conns[c].inbox || s'.conns[c].inbox == []
    ensures RequestsOk(s')
  {
    assert forall c | 0 <= c < |s'.conns| && s'.conns[c].inbox != [] :: s'.conns[c].inbox == s.conns[c].inbox;
    assert forall k | 0 <= k < |s'.served| :: Known(s', s'.served[k].to) by {
      assert forall k | 0 <= k < |s.served| :: Known(s, s.served[k].to);
    }
    forall c | 0 <= c < |s'.conns| && s'.conns[c].inbox != []
      ensures Known(s', s'.conns[c].inbox[0]) && !WasServed(s', s'.conns[c].inbox[0].id)
    {
      assert Known(s, s.conns[c].inbox[0]) && !WasServed(s, s.conns[c].inbox[0].id);
    }
  }

  lemma ReceiveKeeps<Db>(dispatch: Dispatch<Db>, db: Db, s: State<Db>, s': State<Db>)
    requires Invariant(dispatch, db, s) && (Receive(s, s') || RaiseAfterReceive(s, s'))
    ensures Invariant(dispatch, db, s')
  {
    hide ServerOk, BudgetsOk, RequestsOk;
    ServerUnchanged(dispatch, db, s, s');
    BudgetsKept(s, s');
    RequestsUnchanged(s, s');
  }

  lemma HandleKeeps<Db>(dispatch: Dispatch<Db>, db: Db, s: State<Db>, s': State<Db>, i: nat)
    requires Invariant(dispatch, db, s) && Handle(dispatch, s, s', i)
    ensures Invariant(dispatch, db, s')
  {
    hide ServerOk, BudgetsOk, RequestsOk, Protocol.Answer;
    HandleServer(dispatch, db, s, s', i);
    BudgetsKept(s, s');
    HandleRequests(dispatch, s, s', i);
  }

  lemma HandleServer<Db>(dispatch: Dispatch<Db>, db: Db, s: State<Db>, s': State<Db>, i: nat)
    requires ServerOk(dispatch, db, s) && Handle(dispatch, s, s', i)
    ensures ServerOk(dispatch, db, s')
  {
    hide Protocol.Answer;
    assert s'.served[..|s.served|] == s.served;
    forall k | 0 <= k < |s'.served| ensures ServedAt(dispatch, db, s'.served, k) {
      if k < |s.served| {
        assert ServedAt(dispatch, db, s.served, k);
        assert s'.served[..k] == s.served[..k];
      }
    }
  }

  lemma HandleRequests<Db>(dispatch: Dispatch<Db>, s: State<Db>, s': State<Db>, i: nat)
    requires RequestsOk(s) && Handle(dispatch, s, s', i)
    ensures RequestsOk(s')
  {
    hide Protocol.Answer;
    var request := s.conns[i].inbox[0];
    assert forall k | 0 <= k < |s.served| :: Known(s, s.served[k].to);
    assert !WasServed(s, request.id);
    forall c | 0 <= c < |s'.conns| && s'.conns[c].inbox != []
      ensures Known(s', s'.conns[c].inbox[0]) && !WasServed(s', s'.conns[c].inbox[0].id)
    {
      assert c != i && s'.conns[c] == s.conns[c];
      assert Known(s, s.conns[c].inbox[0]) && !WasServed(s, s.conns[c].inbox[0].id);
    }
  }

  lemma BreakKeeps<Db>(dispatch: Dispatch<Db>, db: Db, s: State<Db>, s': State<Db>, i: nat, kept: nat)
    requires Invariant(dispatch, db, s) && Break(s, s', i, kept)
    ensures Invariant(dispatch, db, s')
  {
    hide ServerOk, BudgetsOk, RequestsOk;
    ServerUnchanged(dispatch, db, s, s');
    BudgetsKept(s, s');
    RequestsUnchanged(s, s');
  }

  lemma NextKeeps<Db(!new)>(dispatch: Dispatch<Db>, db: Db, s: State<Db>, s': State<Db>)
    requires Invariant(dispatch, db, s) && Next(dispatch, s, s')
    ensures Invariant(dispatch, db, s')
  {
    hide Invariant, StartCall, Connect, Send, Fail, RaiseBeforeSend, Receive, RaiseAfterReceive, Handle, Break;
    if operation, attempts :| StartCall(s, s', operation, attempts) {
      StartCallKeeps(dispatch, db, s, s', operation, attempts);
    } else if Connect(s, s') {
      ConnectKeeps(dispatch, db, s, s');
    } else if Send(s, s') {
      SendKeeps(dispatch, db, s, s');
    } else if Fail(s, s') || RaiseBeforeSend(s, s') {
      FailKeeps(dispatch, db, s, s');
    } else if Receive(s, s') || RaiseAfterReceive(s, s') {
      ReceiveKeeps(dispatch, db, s, s');
    } else if i :| Handle(dispatch, s, s', i) {
      HandleKeeps(dispatch, db, s, s', i);
    } else {
      var i, kept :| Break(s, s', i, kept);
      BreakKeeps(dispatch, db, s, s', i, kept);
    }
  }

  lemma {:induction false} RunKeeps<Db(!new)>(dispatch: Dispatch<Db>, db: Db, run: seq<State<Db>>, i: nat)
    requires Run(dispatch, db, run) && i < |run|
    ensures Invariant(dispatch, db, run[i])
  {
    if i > 0 {
      RunKeeps(dispatch, db, run, i - 1);
      NextKeeps(dispatch, db, run[i - 1], run[i]);
    }
  }

  // ---------- main results ----------

  /** In every run, a call that returns a result returns the server's answer to the very request the call made: the
      response dispatched for that request at its turn, echoing its id, though the client never looks at ids. */
  lemma Correlation<Db(!new)>(dispatch: Dispatch<Db>, db: Db, run: seq<State<Db>>, i: nat, result: Result)
      returns (k: nat)
    requires Run(dispatch, db, run) && i < |run| && result in run[i].returned
    ensures result.call < |run[i].calls|
    ensures result.reply.to.call == result.call && result.reply.to.operation == run[i].calls[result.call].operation
    ensures k < |run[i].served| && run[i].served[k] == result.reply && ServedAt(dispatch, db, run[i].served, k)
    ensures result.reply.to.Message()
      == map["version" := Int(1)]
        + run[i].calls[result.call].operation["request_id" := Str(Decimal(result.reply.to.id))]
    ensures var response := result.reply.response;
      "request_id" in response && response["request_id"] == Str(Decimal(result.reply.to.id))
      && "ok" in response && Truthy(response["ok"])
  {
    hide Run, Protocol.Answer, DbAfter, InStep, BudgetsOk, PhaseOk;
    RunKeeps(dispatch, db, run, i);
    k :| 0 <= k < |run[i].served| && run[i].served[k] == result.reply;
    assert Known(run[i], run[i].served[k].to);
    assert ServedAt(dispatch, db, run[i].served, k);
    assert Succeeded(result.reply.response);
    Protocol.AnswerEchoes(dispatch, DbAfter(dispatch, db, run[i].served[..k]), result.reply.to.Message());
  }

  /** A handler's step is what Protocol.Serve does with the bytes of the request: the same reply, unless it
      is too large to be sent, and the same database. */
  lemma HandleServesBytes<Db>(dispatch: Dispatch<Db>, s: State<Db>, s': State<Db>, i: nat)
    requires Handle(dispatch, s, s', i)
    requires var request := s.conns[i].inbox[0];
      Protocol.Sendable(request.operation["request_id" := Str(Decimal(request.id))])
    ensures var request := s.conns[i].inbox[0];
      var reply := s'.served[|s.served|];
      reply.to == request
      && Protocol.Serve(dispatch, s.db, Protocol.Frame(request.operation["request_id" := Str(Decimal(request.id))]))
        == (if Protocol.EncodeFrame(reply.response).None? then [] else [reply.response], s'.db)
  {
    hide Protocol.Answer, Protocol.EncodeFrame, Protocol.Serve, Protocol.Frame;
    var request := s.conns[i].inbox[0];
    var m := request.operation["request_id" := Str(Decimal(request.id))];
    Protocol.ServeAnswersInOrder(dispatch, s.db, [m]);
    assert [m][1..] == [] && Protocol.Frames([]) == "" && Protocol.Frame(m) + "" == Protocol.Frame(m);
    assert Protocol.Frames([m]) == Protocol.Frame(m);
    assert Protocol.Envelopes([m]) == [request.Message()] && [request.Message()][1..] == [];
    var (db', response) := Protocol.Answer(dispatch, s.db, request.Message());
    assert Protocol.Answers(dispatch, db', []) == ([], db') && [response] + [] == [response];
  }

  /** How often requests of a call were dispatched. */
  function Dispatches(served: seq<Reply>, call: nat): nat {
    if served == [] then 0
    else Dispatches(served[..|served| - 1], call) + if served[|served| - 1].to.call == call then 1 else 0
  }

  function ServedIds(served: seq<Reply>, call: nat): (ids: set<nat>)
    ensures forall id | id in ids :: exists k | 0 <= k < |served| :: served[k].to.call == call && served[k].to.id == id
  {
    if served == [] then {} else
    var before, last := ServedIds(served[..|served| - 1], call), served[|served| - 1].to;
    assert forall k | 0 <= k < |served| - 1 :: served[..|served| - 1][k] == served[k];
    if last.call == call then before + {last.id} else before
  }

  function SentIds(sent: seq<Request>, call: nat): set<nat> {
    set i: nat | i < |sent| && sent[i].call == call
  }

  lemma {:induction false} CountServed(served: seq<Reply>, call: nat)
    requires forall k, l | 0 <= k < l < |served| :: served[k].to.id != served[l].to.id
    ensures |ServedIds(served, call)| == Dispatches(served, call)
  {
    if served != [] {
      CountServed(served[..|served| - 1], call);
    }
  }

  lemma {:induction false} CountSent(sent: seq<Request>, call: nat)
    ensures |SentIds(sent, call)| == Attempts(sent, call)
  {
    if sent != [] {
      var n := |sent| - 1;
      CountSent(sent[..n], call);
      assert SentIds(sent, call) == SentIds(sent[..n], call) + if sent[n].call == call then {n} else {};
    }
  }

  lemma SubsetCount(a: set<nat>, b: set<nat>)
    requires a <= b
    ensures |a| <= |b|
  {
    assert b == a + (b - a);
  }

  /** A call is dispatched at most as often as it may try, whatever fails. */
  lemma DispatchedWithinAttempts<Db(!new)>(dispatch: Dispatch<Db>, db: Db, run: seq<State<Db>>, i: nat, call: nat)
    requires Run(dispatch, db, run) && i < |run| && call < |run[i].calls|
    ensures Dispatches(run[i].served, call) <= run[i].calls[call].attempts
  {
    hide Run;
    RunKeeps(dispatch, db, run, i);
    var s := run[i];
    CountServed(s.served, call);
    CountSent(s.sent, call);
    forall id | id in ServedIds(s.served, call) ensures id in SentIds(s.sent, call) {
      var k :| 0 <= k < |s.served| && s.served[k].to.call == call && s.served[k].to.id == id;
      assert Known(s, s.served[k].to);
    }
    SubsetCount(ServedIds(s.served, call), SentIds(s.sent, call));
    assert BudgetOk(s, call);
  }

  lemma {:induction false} DispatchedTwice(served: seq<Reply>, call: nat, k: nat, l: nat)
    requires k < |served| && served[k].to.call == call
    requires k < l < |served| ==> served[l].to.call == call
    ensures Dispatches(served, call) >= if k < l < |served| then 2 else 1
    decreases |served|
  {
    var n := |served| - 1;
    if k < n { DispatchedTwice(served[..n], call, k, if l == n then k else l); }
  }

  /** In particular one that is not idempotent is dispatched at most once. */
  lemma AtMostOnce<Db(!new)>(dispatch: Dispatch<Db>, db: Db, run: seq<State<Db>>, i: nat, k: nat, l: nat)
    requires Run(dispatch, db, run) && i < |run| && k < |run[i].served| && l < |run[i].served|
    requires run[i].served[k].to.call == run[i].served[l].to.call < |run[i].calls|
    requires run[i].calls[run[i].served[k].to.call].attempts == 1
    ensures k == l
  {
    hide Run, Dispatches;
    var call := run[i].served[k].to.call;
    DispatchedWithinAttempts(dispatch, db, run, i, call);
    if k < l {
      DispatchedTwice(run[i].served, call, k, l);
    } else if l < k {
      DispatchedTwice(run[i].served, call, l, k);
    }
  }

  /** What may fail, at any moment: a call starts with any number of attempts; an attempt fails, or ends the call with
      the connection left as it is, before its request is sent or after the response was read; and a connection loses
      what its handler has not read and any tail of the replies, whoever waits for them. */
  lemma AnythingMayFail<Db(!new)>(dispatch: Dispatch<Db>, s: State<Db>, operation: Document, attempts: nat, i: nat,
                                  kept: nat)
    ensures s.phase.Idle? && attempts > 0 ==>
      Next(dispatch, s, s.(calls := s.calls + [Call(operation, attempts)], phase := Trying(|s.calls|, attempts)))
    ensures s.phase.Trying? ==> Next(dispatch, s, s.(phase := Idle))
    ensures (s.phase.Trying? || s.phase.Waiting?) && s.phase.left == 1 ==>
      Next(dispatch, s, s.(socket := None, phase := Idle))
    ensures s.phase.Waiting? && s.socket == Some(i) && i < |s.conns| && s.conns[i].outbox != [] ==>
      Next(dispatch, s,
        s.(conns := s.conns[i := Connection(s.conns[i].inbox, s.conns[i].outbox[1..])], phase := Idle))
    ensures i < |s.conns| && kept <= |s.conns[i].outbox| ==>
      Next(dispatch, s, s.(conns := s.conns[i := Connection([], s.conns[i].outbox[..kept])]))
  {
    if s.phase.Waiting? && s.socket == Some(i) && i < |s.conns| && s.conns[i].outbox != [] {
      assert RaiseAfterReceive(s, s.(conns := Popped(s), phase := Idle));
    }
    if s.phase.Idle? && attempts > 0 {
      assert StartCall(s, s.(calls := s.calls + [Call(operation, attempts)], phase := Trying(|s.calls|, attempts)),
                       operation, attempts);
    }
    if s.phase.Trying? { assert RaiseBeforeSend(s, s.(phase := Idle)); }
    if (s.phase.Trying? || s.phase.Waiting?) && s.phase.left == 1 { assert Fail(s, s.(socket := None, phase := Idle)); }
    if i < |s.conns| && kept <= |s.conns[i].outbox| {
      assert Break(s, s.(conns := s.conns[i := Connection([], s.conns[i].outbox[..kept])]), i, kept);
    }
  }

  /** One attempt on a new connection, answered but not yet read. */
  lemma AttemptAnswered<Db(!new)>(dispatch: Dispatch<Db>, s: State<Db>, call: nat, left: nat)
      returns (connected: State<Db>, sent: State<Db>, answered: State<Db>)
    requires s.phase == Trying(call, left) && call < |s.calls| && s.socket.None?
    ensures Next(dispatch, s, connected) && Next(dispatch, connected, sent) && Next(dispatch, sent, answered)
    ensures var request := Request(|s.sent|, call, s.calls[call].operation);
      var (db, response) := Protocol.Answer(dispatch, s.db, request.Message());
      var reply := Reply(request, response);
      answered == s.(db := db, conns := s.conns + [Connection([], [reply])], socket := Some(|s.conns|),
        sent := s.sent + [request], served := s.served + [reply], phase := Waiting(call, left, request))
  {
    hide Protocol.Answer;
    var request := Request(|s.sent|, call, s.calls[call].operation);
    var (db, response) := Protocol.Answer(dispatch, s.db, request.Message());
    var reply := Reply(request, response);
    connected := s.(conns := s.conns + [Connection([], [])], socket := Some(|s.conns|));
    sent := connected.(sent := s.sent + [request], conns := s.conns + [Connection([request], [])],
      phase := Waiting(call, left, request));
    answered := sent.(db := db, served := s.served + [reply], conns := s.conns + [Connection([], [reply])]);
    assert Connect(s, connected);
    assert [] + [request] == [request] && [request][1..] == [] && [] + [reply] == [reply];
    assert connected.conns[|s.conns| := Connection([request], [])] == sent.conns;
    assert Send(connected, sent);
    assert sent.conns[|s.conns| := Connection([], [reply])] == answered.conns;
    assert Handle(dispatch, sent, answered, |s.conns|);
  }

  /** The bound is met: a call with two attempts whose first connection fails before the answer is read tries again
      and returns the answer to its second request; both were dispatched. */
  lemma RetryReturns<Db(!new)>(dispatch: Dispatch<Db>, db: Db, operation: Document) returns (run: seq<State<Db>>)
    requires var (first, second) := (Request(0, 0, operation).Message(), Request(1, 0, operation).Message());
      Succeeded(Protocol.Answer(dispatch, Protocol.Answer(dispatch, db, first).0, second).1)
    ensures Run(dispatch, db, run)
    ensures var (first, second) := (Request(0, 0, operation).Message(), Request(1, 0, operation).Message());
      var (last, db') := (run[|run| - 1], Protocol.Answer(dispatch, db, first).0);
      last.phase == Idle && last.db == Protocol.Answer(dispatch, db', second).0
      && last.returned == [Result(0, Reply(Request(1, 0, operation), Protocol.Answer(dispatch, db', second).1))]
      && last.calls == [Call(operation, 2)] && Dispatches(last.served, 0) == 2
  {
    hide Protocol.Answer, Succeeded, Next, Request.Message, Dispatches;
    var r0, r1 := Request(0, 0, operation), Request(1, 0, operation);
    var (db', a0) := Protocol.Answer(dispatch, db, r0.Message());
    var (db'', a1) := Protocol.Answer(dispatch, db', r1.Message());
    var p0, p1 := Reply(r0, a0), Reply(r1, a1);
    var c0, c1 := Connection([], [p0]), Connection([], [p1]);
    run := StartedRun(dispatch, db, operation);
    assert run != [];
    run := AttemptedRun(dispatch, db, run, 0, 2);
    assert run != [] && run[|run| - 1]
      == State(db', [c0], Some(0), Waiting(0, 2, r0), [Call(operation, 2)], [r0], [p0], []);
    run := FailedRun(dispatch, db, run);
    assert run != [] && run[|run| - 1]
      == State(db', [c0], None, Trying(0, 1), [Call(operation, 2)], [r0], [p0], []);
    run := AttemptedRun(dispatch, db, run, 0, 1);
    assert run != [] && run[|run| - 1]
      == State(db'', [c0, c1], Some(1), Waiting(0, 1, r1), [Call(operation, 2)], [r0, r1], [p0, p1], []);
    run := ReceivedRun(dispatch, db, run);
    TwoDispatched(p0, p1);
  }

  lemma TwoDispatched(a: Reply, b: Reply)
    requires a.to.call == b.to.call
    ensures Dispatches([a, b], a.to.call) == 2
  {
    assert [a, b][..1] == [a] && [a][..0] == [];
    assert Dispatches([a], a.to.call) == Dispatches([], a.to.call) + 1;
  }

  lemma RunGoesOn<Db(!new)>(dispatch: Dispatch<Db>, db: Db, run: seq<State<Db>>, s: State<Db>)
    requires Run(dispatch, db, run) && Next(dispatch, run[|run| - 1], s)
    ensures Run(dispatch, db, run + [s])
  {
    hide Next;
  }

  lemma StartedRun<Db(!new)>(dispatch: Dispatch<Db>, db: Db, operation: Document) returns (run: seq<State<Db>>)
    ensures Run(dispatch, db, run)
    ensures run[|run| - 1] == Initial(db).(calls := [Call(operation, 2)], phase := Trying(0, 2))
  {
    var s := Initial(db).(calls := [Call(operation, 2)], phase := Trying(0, 2));
    assert StartCall(Initial(db), s, operation, 2);
    run := [Initial(db), s];
  }

  lemma AttemptedRun<Db(!new)>(dispatch: Dispatch<Db>, db: Db, before: seq<State<Db>>, call: nat, left: nat)
      returns (run: seq<State<Db>>)
    requires Run(dispatch, db, before)
    requires var s := before[|before| - 1]; s.phase == Trying(call, left) && call < |s.calls| && s.socket.None?
    ensures Run(dispatch, db, run)
    ensures var s := before[|before| - 1];
      var request := Request(|s.sent|, call, s.calls[call].operation);
      var (db, response) := Protocol.Answer(dispatch, s.db, request.Message());
      var reply := Reply(request, response);
      run[|run| - 1] == s.(db := db, conns := s.conns + [Connection([], [reply])], socket := Some(|s.conns|),
        sent := s.sent + [request], served := s.served + [reply], phase := Waiting(call, left, request))
  {
    hide Next, Protocol.Answer;
    var s1, s2, s3 := AttemptAnswered(dispatch, before[|before| - 1], call, left);
    RunGoesOn(dispatch, db, before, s1);
    RunGoesOn(dispatch, db, before + [s1], s2);
    RunGoesOn(dispatch, db, before + [s1] + [s2], s3);
    run := before + [s1] + [s2] + [s3];
  }

  lemma FailedRun<Db(!new)>(dispatch: Dispatch<Db>, db: Db, before: seq<State<Db>>) returns (run: seq<State<Db>>)
    requires Run(dispatch, db, before) && before[|before| - 1].phase.Waiting? && before[|before| - 1].phase.left > 1
    ensures Run(dispatch, db, run)
    ensures var s := before[|before| - 1];
      run[|run| - 1] == s.(socket := None, phase := Trying(s.phase.call, s.phase.left - 1))
  {
    var s := before[|before| - 1];
    var s' := s.(socket := None, phase := Trying(s.phase.call, s.phase.left - 1));
    assert Fail(s, s');
    RunGoesOn(dispatch, db, before, s');
    run := before + [s'];
  }

  lemma ReceivedRun<Db(!new)>(dispatch: Dispatch<Db>, db: Db, before: seq<State<Db>>) returns (run: seq<State<Db>>)
    requires Run(dispatch, db, before)
    requires var s := before[|before| - 1];
      s.phase.Waiting? && s.socket.Some? && s.socket.value < |s.conns| && s.conns[s.socket.value].outbox != []
      && Succeeded(s.conns[s.socket.value].outbox[0].response)
    ensures Run(dispatch, db, run)
    ensures var s := before[|before| - 1];
      run[|run| - 1] == s.(conns := Popped(s), phase := Idle,
        returned := s.returned + [Result(s.phase.call, s.conns[s.socket.value].outbox[0])])
  {
    var s := before[|before| - 1];
    var s' := s.(conns := Popped(s), phase := Idle,
      returned := s.returned + [Result(s.phase.call, s.conns[s.socket.value].outbox[0])]);
    assert Receive(s, s');
    RunGoesOn(dispatch, db, before, s');
    run := before + [s'];
  }
}
