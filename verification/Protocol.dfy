/** Length-prefixed JSON frames over a byte stream that may be chunked in any way, and the
    handler that answers the requests of one connection. */
module Protocol {
  import opened Text
  import opened Values
  import opened JsonCodec

  const PROTOCOL_VERSION := 1
  const MAX_FRAME := 8 * 1024 * 1024

  // ---------- encoding ----------

  /** `struct.pack(">I", n)`, one `char` per byte. */
  function BigEndian(n: nat): (s: string)
    requires n <= MAX_FRAME
    ensures |s| == 4 && FromBigEndian(s) == n
  {
    [(n / 0x1000000) as char, (n / 0x10000 % 0x100) as char, (n / 0x100 % 0x100) as char, (n % 0x100) as char]
  }

  function FromBigEndian(s: string): nat
    requires |s| == 4
  {
    s[0] as int * 0x1000000 + s[1] as int * 0x10000 + s[2] as int * 0x100 + s[3] as int
  }

  /** The most significant byte comes first: headers are ordered like the lengths they hold. */
  lemma HeaderOrder(m: nat, n: nat)
    requires m < n <= MAX_FRAME
    ensures LexLess(BigEndian(m), BigEndian(n))
  {
    var a, b := BigEndian(m), BigEndian(n);
    var i := if a[0] != b[0] then 0 else if a[1] != b[1] then 1 else if a[2] != b[2] then 2 else 3;
    assert a[i] < b[i];
    LessAt(a, b, i);
  }

  lemma {:induction false} LessAt(a: string, b: string, i: nat)
    requires i < |a| && i < |b| && a[..i] == b[..i] && a[i] < b[i]
    ensures LexLess(a, b)
    decreases i
  {
    if i > 0 {
      assert a[0] == a[..i][0] == b[..i][0] == b[0];
      assert a[1..][..i - 1] == a[..i][1..] == b[..i][1..] == b[1..][..i - 1];
      LessAt(a[1..], b[1..], i - 1);
    }
  }

  /** The version is added first, so a message that carries one keeps its own. */
  function Envelope(message: Document): Document {
    map["version" := Int(PROTOCOL_VERSION)] + message
  }

  /** None stands for a ProtocolError: the frame is too large. */
  function EncodeFrame(message: Document): Option<string> {
    var body := Print(Obj(Envelope(message)));
    if |body| > MAX_FRAME then None else Some(BigEndian(|body|) + body)
  }

  predicate CurrentVersion(m: Document) {
    "version" in m && PyEq(m["version"], Int(PROTOCOL_VERSION))
  }

  // ---------- decoding ----------

  datatype Received = Message(m: Document) | EndOfFile | Refused(error: string)

  const BAD_LENGTH := "invalid frame length"
  const BAD_JSON := "invalid JSON frame"
  const BAD_VERSION := "unsupported protocol version"

  function ReadBody(body: string): Received {
    match Loads(body)
    case Some(Obj(m)) => if CurrentVersion(m) then Message(m) else Refused(BAD_VERSION)
    case Some(_) => Refused(BAD_VERSION)
    case None => Refused(BAD_JSON)
  }

  /** What decoding one frame from the bytes still to come gives, and the bytes left after it. */
  function ReadFrame(data: string): (r: (Received, string))
    ensures r.0.Message? ==> |r.1| < |data|
  {
    if |data| < 4 then (EndOfFile, "")
    else
      var length, after := FromBigEndian(data[..4]), data[4..];
      if length <= 0 || length > MAX_FRAME then (Refused(BAD_LENGTH), after)
      else if |after| < length then (EndOfFile, "")
      else (ReadBody(after[..length]), after[length..])
  }

  /** A connection that delivers its bytes in non-empty chunks of any size, and nothing once they are used up. */
  class Stream {
    var pending: string

    constructor (bytes: string)
      ensures pending == bytes
    {
      pending := bytes;
    }

    method Recv(limit: nat) returns (chunk: string)
      requires limit > 0
      modifies this`pending
      ensures chunk + pending == old(pending)
      ensures |chunk| <= limit
      ensures chunk == "" <==> old(pending) == ""
    {
      if pending == "" {
        return "";
      }
      var size :| 0 < size <= limit && size <= |pending|;
      chunk, pending := pending[..size], pending[size..];
    }
  }

  function Join(chunks: seq<string>): string {
    if chunks == [] then "" else Join(chunks[..|chunks| - 1]) + chunks[|chunks| - 1]
  }

  /** None stands for an EOFError. */
  method RecvExact(stream: Stream, length: nat) returns (r: Option<string>)
    modifies stream`pending
    ensures |old(stream.pending)| >= length ==>
        r == Some(old(stream.pending)[..length]) && stream.pending == old(stream.pending)[length..]
    ensures |old(stream.pending)| < length ==> r == None && stream.pending == ""
  {
    var chunks := [];
    var remaining := length;
    while remaining > 0
      invariant 0 <= remaining <= length && |Join(chunks)| == length - remaining
      invariant Join(chunks) + stream.pending == old(stream.pending)
    {
      var chunk := stream.Recv(remaining);
      if chunk == "" {
        return None;
      }
      assert (chunks + [chunk])[..|chunks|] == chunks;
      chunks := chunks + [chunk];
      remaining := remaining - |chunk|;
    }
    return Some(Join(chunks));
  }

  method DecodeFrame(stream: Stream) returns (r: Received)
    modifies stream`pending
    ensures (r, stream.pending) == ReadFrame(old(stream.pending))
  {
    var header := RecvExact(stream, 4);
    if header.None? {
      return EndOfFile;
    }
    var length := FromBigEndian(header.value);
    if length <= 0 || length > MAX_FRAME {
      return Refused(BAD_LENGTH);
    }
    var body := RecvExact(stream, length);
    if body.None? {
      return EndOfFile;
    }
    match Loads(body.value) {
      case Some(Obj(m)) => r := if CurrentVersion(m) then Message(m) else Refused(BAD_VERSION);
      case Some(_) => r := Refused(BAD_VERSION);
      case None => r := Refused(BAD_JSON);
    }
  }

  // ---------- framing ----------

  /** A frame decodes to its message with the version added, exactly when the message
      carries no other version, and decoding stops at the frame's end. */
  lemma {:induction false} ReadEncoded(message: Document, rest: string)
    requires EncodeFrame(message).Some?
    ensures ReadFrame(EncodeFrame(message).value + rest)
      == (if CurrentVersion(Envelope(message)) then Message(Envelope(message)) else Refused(BAD_VERSION), rest)
    ensures CurrentVersion(Envelope(message))
        <==> ("version" in message ==> PyEq(message["version"], Int(PROTOCOL_VERSION)))
  {
    hide Print, Loads;
    var body := Print(Obj(Envelope(message)));
    var data := EncodeFrame(message).value + rest;
    assert data[..4] == BigEndian(|body|);
    assert data[4..] == body + rest;
    RoundTrip(Obj(Envelope(message)), "");
    assert body + "" == body;
    PrintStart(Obj(Envelope(message)));
  }

  /** A frame cut short never yields a message. */
  lemma {:induction false} TruncatedFrame(message: Document, n: nat)
    requires EncodeFrame(message).Some? && n < |EncodeFrame(message).value|
    ensures ReadFrame(EncodeFrame(message).value[..n]) == (EndOfFile, "")
  {
    hide Print, Loads, ReadBody;
    var body := Print(Obj(Envelope(message)));
    var data := EncodeFrame(message).value[..n];
    PrintStart(Obj(Envelope(message)));
    if n >= 4 { assert data[..4] == BigEndian(|body|); }
  }

  // ---------- decoding inside a frame ----------

  predicate Letter(c: char) {
    'a' <= c <= 'z'
  }

  /** As all keys of the handler's replies do, and of its envelope. */
  predicate StartsWithLetters(key: string) {
    |key| >= 2 && Letter(key[0]) && Letter(key[1])
  }

  lemma BodyStart(m: Document)
    requires m != map[] && forall key | key in m :: StartsWithLetters(key)
    ensures var body := Print(Obj(m));
      |body| >= 4 && body[0] == '{' && body[1] == '"' && Letter(body[2]) && Letter(body[3])
  {
    var keys := SortedKeys(m.Keys);
    var key := keys[0];
    assert key in m;
    QuoteStart(key);
    FieldsStart(m, keys);
    assert Print(Obj(m)) == "{" + PrintFields(Obj(m), keys) + "}";
    hide Quote, Print, PrintFields;
  }

  lemma QuoteStart(key: string)
    requires StartsWithLetters(key)
    ensures |Quote(key)| >= 3 && Quote(key)[0] == '"' && Quote(key)[1] == key[0] && Quote(key)[2] == key[1]
  {
    assert Escape(key) == EscapeChar(key[0]) + (EscapeChar(key[1]) + Escape(key[1..][1..]));
  }

  lemma FieldsStart(m: Document, keys: seq<string>)
    requires keys != [] && forall k <- keys :: k in m
    ensures Quote(keys[0]) <= PrintFields(Obj(m), keys)
  {}

  /** Text that starts with a quote or a letter is no object. */
  lemma LoadsNoObject(text: string)
    requires text != "" && (text[0] == '"' || Letter(text[0]))
    ensures Loads(text) == None || !Loads(text).value.Obj?
  {
    assert Skip(text) == text;
    hide ParseString;
  }

  /** Decoding that starts inside a reply never gives a message, whatever follows: a length read from the text is
      too large, and after part of a header the text that would be read is no object. */
  lemma InsideFrameNeverDecodes(message: Document, k: nat, rest: string)
    requires EncodeFrame(message).Some? && 0 < k < |EncodeFrame(message).value|
    requires forall key | key in message :: StartsWithLetters(key)
    ensures !ReadFrame(EncodeFrame(message).value[k..] + rest).0.Message?
  {
    hide Print, Loads;
    var m := Envelope(message);
    var body, frame := Print(Obj(m)), EncodeFrame(message).value;
    var data := frame[k..] + rest;
    assert "version" in m && StartsWithLetters("version");
    BodyStart(m);
    PrintHasNoControl(Obj(m));
    if |data| >= 4 {
      if k >= 4 {
        assert data[..4][0] == body[k - 4];
        assert body[k - 4] in body;
      } else {
        var length, after := FromBigEndian(data[..4]), data[4..];
        if 0 < length <= |after| {
          assert after[0] == data[4] == (frame + rest)[k + 4] == body[k];
          assert after[..length][0] == body[k];
          LoadsNoObject(after[..length]);
        }
      }
    }
  }

  predicate Sendable(message: Document) {
    EncodeFrame(message).Some? && CurrentVersion(Envelope(message))
  }

  predicate AllSendable(ms: seq<Document>) {
    forall i | 0 <= i < |ms| :: Sendable(ms[i])
  }

  function Frame(message: Document): string
    requires Sendable(message)
  {
    EncodeFrame(message).value
  }

  function Frames(ms: seq<Document>): string
    requires AllSendable(ms)
  {
    if ms == [] then "" else Frame(ms[0]) + Frames(ms[1..])
  }

  /** The messages decoded one after another until something else comes. */
  function ReadMessages(data: string): (seq<Document>, Received)
    decreases |data|
  {
    var (received, rest) := ReadFrame(data);
    if received.Message? then
      var (more, end) := ReadMessages(rest);
      ([received.m] + more, end)
    else ([], received)
  }

  function Envelopes(ms: seq<Document>): seq<Document> {
    seq(|ms|, i requires 0 <= i < |ms| => Envelope(ms[i]))
  }

  lemma ReadSendable(message: Document, rest: string)
    requires Sendable(message)
    ensures ReadFrame(Frame(message) + rest) == (Message(Envelope(message)), rest)
  {
    hide ReadFrame, EncodeFrame;
    ReadEncoded(message, rest);
  }

  lemma CutSendable(message: Document, n: nat)
    requires Sendable(message) && n < |Frame(message)|
    ensures ReadFrame(Frame(message)[..n]) == (EndOfFile, "")
  {
    hide ReadFrame, EncodeFrame;
    TruncatedFrame(message, n);
  }

  lemma {:induction false} ReadFrames(ms: seq<Document>, rest: string)
    requires AllSendable(ms)
    ensures ReadMessages(Frames(ms) + rest) == (Envelopes(ms) + ReadMessages(rest).0, ReadMessages(rest).1)
    decreases |ms|
  {
    hide ReadFrame, Sendable, Frame, Envelope;
    if ms == [] {
      assert Frames(ms) + rest == rest;
      assert Envelopes(ms) + ReadMessages(rest).0 == ReadMessages(rest).0;
    } else {
      var frame, tail := Frame(ms[0]), Frames(ms[1..]) + rest;
      assert Frames(ms) + rest == frame + tail;
      ReadSendable(ms[0], tail);
      ReadFrames(ms[1..], rest);
      assert Envelopes(ms) == [Envelope(ms[0])] + Envelopes(ms[1..]);
      var more := ReadMessages(rest).0;
      assert [Envelope(ms[0])] + (Envelopes(ms[1..]) + more) == [Envelope(ms[0])] + Envelopes(ms[1..]) + more;
    }
  }

  /** Frames sent one after another and cut anywhere decode, however they are chunked, to exactly
      the messages whose frames are complete, in order, and then to the end of the stream. */
  lemma {:induction false} FramingTheorem(ms: seq<Document>, n: nat) returns (k: nat)
    requires AllSendable(ms)
    requires n <= |Frames(ms)|
    ensures k <= |ms| && |Frames(ms[..k])| <= n && (k < |ms| ==> n < |Frames(ms[..k + 1])|)
    ensures ReadMessages(Frames(ms)[..n]) == (Envelopes(ms[..k]), EndOfFile)
    decreases |ms|
  {
    hide ReadFrame, Sendable, Frame, Envelope;
    if ms == [] {
      k := 0;
      ReadNothing();
      assert Frames(ms)[..n] == "";
      assert Envelopes(ms[..0]) == [];
    } else {
      var frame := Frame(ms[0]);
      FramesOne(ms);
      if n < |frame| {
        k := 0;
        CutSendable(ms[0], n);
        assert Frames(ms)[..n] == frame[..n];
        assert Envelopes(ms[..0]) == [];
      } else {
        var rest := Frames(ms[1..])[..n - |frame|];
        var k' := FramingTheorem(ms[1..], n - |frame|);
        k := k' + 1;
        assert Frames(ms)[..n] == frame + rest;
        ReadSendable(ms[0], rest);
        assert Envelopes(ms[..k]) == [Envelope(ms[0])] + Envelopes(ms[1..][..k']);
        FramesPrefix(ms, k');
        if k < |ms| { FramesPrefix(ms, k); }
      }
    }
  }

  lemma ReadNothing()
    ensures ReadFrame("") == (EndOfFile, "")
  {}

  lemma FramesOne(ms: seq<Document>)
    requires ms != [] && AllSendable(ms)
    ensures Frames(ms[..1]) == Frame(ms[0])
    ensures Frames(ms[..0]) == ""
  {
    assert ms[..1][1..] == [];
    assert Frames(ms[..1]) == Frame(ms[0]) + "";
  }

  lemma FramesPrefix(ms: seq<Document>, k: nat)
    requires k < |ms| && AllSendable(ms)
    ensures Frames(ms[..k + 1]) == Frame(ms[0]) + Frames(ms[1..][..k])
  {
    hide Frame, Sendable;
    assert ms[..k + 1][1..] == ms[1..][..k];
  }

  // ---------- the handler of one connection ----------

  /** What the dispatcher does: it returns a response or raises, a ConflictError or DuplicateKeyError, one of
      the errors of an invalid request, or anything else. */
  datatype Dispatched = Response(m: Document) | Conflict(error: string) | Invalid(error: string) | Internal

  type Dispatch<!Db> = (Db, Document) -> (Db, Dispatched)

  function Failure(id: Json, error: string, code: string): Document {
    map["request_id" := id, "ok" := Bool(false), "error" := Str(error), "code" := Str(code)]
  }

  function ReplyTo(outcome: Dispatched, id: Json): Document {
    match outcome
    case Response(m) => m["request_id" := id]
    case Conflict(error) => Failure(id, error, "conflict")
    case Invalid(error) => Failure(id, error, "invalid_request")
    case Internal => Failure(id, "internal server error", "internal")
  }

  /** The reply to a decoded request, with the request's id. */
  function Answer<Db>(dispatch: Dispatch<Db>, db: Db, request: Document): (Db, Document) {
    var (db', outcome) := dispatch(db, request);
    (db', ReplyTo(outcome, if "request_id" in request then request["request_id"] else Null))
  }

  lemma AnswerEchoes<Db>(dispatch: Dispatch<Db>, db: Db, request: Document)
    ensures var response := Answer(dispatch, db, request).1;
      "request_id" in response && ("request_id" in request ==> response["request_id"] == request["request_id"])
  {}

  /** The reply to bytes that are no request. */
  function Undecodable(error: string): Document {
    map["request_id" := Null, "ok" := Bool(false), "error" := Str(error)]
  }

  /** The replies one connection gets, in order, and the database afterwards: one answer to each request, until
      the stream ends, a frame is refused, or a reply is too large to send. */
  function Serve<Db>(dispatch: Dispatch<Db>, db: Db, data: string): (seq<Document>, Db)
    decreases |data|
  {
    match ReadFrame(data)
    case (EndOfFile, _) => ([], db)
    case (Refused(error), _) => ([Undecodable(error)], db)
    case (Message(request), rest) =>
      var (db', response) := Answer(dispatch, db, request);
      if EncodeFrame(response).None? then ([], db')
      else
        var (more, db'') := Serve(dispatch, db', rest);
        ([response] + more, db'')
  }

  lemma NothingSent<Db>(dispatch: Dispatch<Db>, db: Db, data: string)
    ensures var (more, end) := Serve(dispatch, db, data); Serve(dispatch, db, data) == ([] + more, end)
  {
    hide Serve;
    var (more, end) := Serve(dispatch, db, data);
    assert [] + more == more;
  }

  /** `_ProtocolHandler.handle`; `sent` are the replies written to the socket. */
  method Handle<Db>(stream: Stream, dispatch: Dispatch<Db>, start: Db)
      returns (sent: seq<Document>, db: Db)
    modifies stream`pending
    ensures (sent, db) == Serve(dispatch, start, old(stream.pending))
  {
    sent, db := [], start;
    NothingSent(dispatch, start, stream.pending);
    while true
      invariant var (more, end) := Serve(dispatch, db, stream.pending);
        Serve(dispatch, start, old(stream.pending)) == (sent + more, end)
      decreases |stream.pending|
    {
      hide EncodeFrame, CurrentVersion;
      ghost var before := stream.pending;
      var received := DecodeFrame(stream);
      match received {
        case EndOfFile =>
          assert sent + [] == sent;
          return;
        case Refused(error) =>
          sent := sent + [Undecodable(error)];
          return;
        case Message(request) =>
          var (db', response) := Answer(dispatch, db, request);
          var (more, _) := Serve(dispatch, db', stream.pending);
          db := db';
          if EncodeFrame(response).None? {
            assert sent + [] == sent;
            return;
          }
          assert sent + ([response] + more) == (sent + [response]) + more;
          sent := sent + [response];
      }
    }
  }

  /** One by one answers to a list of requests; stops at a reply too large to send. */
  function Answers<Db>(dispatch: Dispatch<Db>, db: Db, requests: seq<Document>): (seq<Document>, Db) {
    if requests == [] then ([], db) else
    var (db', response) := Answer(dispatch, db, requests[0]);
    if EncodeFrame(response).None? then ([], db') else
    var (more, db'') := Answers(dispatch, db', requests[1..]);
    ([response] + more, db'')
  }

  /** A connection that carries whole frames gets one answer to each, in order, each computed on the
      database the previous request left. */
  lemma {:induction false} ServeAnswersInOrder<Db>(dispatch: Dispatch<Db>, db: Db, ms: seq<Document>)
    requires AllSendable(ms)
    ensures Serve(dispatch, db, Frames(ms)) == Answers(dispatch, db, Envelopes(ms))
    decreases |ms|
  {
    hide ReadFrame, Sendable, Frame, Envelope, Answer, EncodeFrame, Serve;
    if ms == [] {
      ServeNothing(dispatch, db);
    } else {
      ReadSendable(ms[0], Frames(ms[1..]));
      ServeMessage(dispatch, db, Frames(ms), Envelope(ms[0]), Frames(ms[1..]));
      var (db', response) := Answer(dispatch, db, Envelope(ms[0]));
      ServeAnswersInOrder(dispatch, db', ms[1..]);
      assert Envelopes(ms) == [Envelope(ms[0])] + Envelopes(ms[1..]);
      assert Envelopes(ms)[1..] == Envelopes(ms[1..]);
    }
  }

  lemma ServeNothing<Db>(dispatch: Dispatch<Db>, db: Db)
    ensures Serve(dispatch, db, "") == ([], db)
  {}

  lemma ServeMessage<Db>(dispatch: Dispatch<Db>, db: Db, data: string, request: Document, rest: string)
    requires ReadFrame(data) == (Message(request), rest)
    ensures var (db', response) := Answer(dispatch, db, request);
      var (more, end) := Serve(dispatch, db', rest);
      Serve(dispatch, db, data) == if EncodeFrame(response).None? then ([], db') else ([response] + more, end)
  {
    hide ReadFrame, Answer, EncodeFrame;
  }

  // ---------- what the handler does to the database ----------

  /** The database after the requests, one dispatched after another. */
  function FoldDb<Db>(dispatch: Dispatch<Db>, db: Db, requests: seq<Document>): Db {
    if requests == [] then db else FoldDb(dispatch, dispatch(db, requests[0]).0, requests[1..])
  }

  /** What is sent for a request: the response under the request's id, or `ok` false with the error and its code. */
  predicate IsReply(outcome: Dispatched, request: Document, reply: Document) {
    var id := if "request_id" in request then request["request_id"] else Null;
    match outcome
    case Response(m) =>
      reply.Keys == m.Keys + {"request_id"} && reply["request_id"] == id
      && forall k | k in m && k != "request_id" :: reply[k] == m[k]
    case Conflict(error) =>
      reply == map["request_id" := id, "ok" := Bool(false), "error" := Str(error), "code" := Str("conflict")]
    case Invalid(error) =>
      reply == map["request_id" := id, "ok" := Bool(false), "error" := Str(error), "code" := Str("invalid_request")]
    case Internal =>
      reply == map["request_id" := id, "ok" := Bool(false), "error" := Str("internal server error"),
        "code" := Str("internal")]
  }

  lemma AnswerMeans<Db>(dispatch: Dispatch<Db>, db: Db, request: Document)
    ensures Answer(dispatch, db, request).0 == dispatch(db, request).0
    ensures IsReply(dispatch(db, request).1, request, Answer(dispatch, db, request).1)
  {}

  /** Every request is dispatched to the database the ones before it left, and gets the reply to what that dispatch
      did; a reply that is too large ends the connection after its request has taken effect. */
  lemma {:induction false} AnswersMean<Db>(dispatch: Dispatch<Db>, db: Db, requests: seq<Document>)
    ensures var (replies, end) := Answers(dispatch, db, requests);
      |replies| <= |requests|
      && (forall k | 0 <= k < |replies| ::
            IsReply(dispatch(FoldDb(dispatch, db, requests[..k]), requests[k]).1, requests[k], replies[k]))
      && if |replies| == |requests| then end == FoldDb(dispatch, db, requests)
         else
           end == FoldDb(dispatch, db, requests[..|replies| + 1])
           && exists reply ::
             EncodeFrame(reply).None? && IsReply(
               dispatch(FoldDb(dispatch, db, requests[..|replies|]), requests[|replies|]).1, requests[|replies|], reply)
  {
    hide EncodeFrame, Answer, IsReply;
    if requests != [] {
      var request, rest := requests[0], requests[1..];
      AnswerMeans(dispatch, db, request);
      var (db', response) := Answer(dispatch, db, request);
      assert requests[..0] == [] && FoldDb(dispatch, db, []) == db;
      FoldFirst(dispatch, db, requests, 0);
      if EncodeFrame(response).Some? {
        AnswersMean(dispatch, db', rest);
        var (more, end) := Answers(dispatch, db', rest);
        forall k | 0 <= k < |more|
          ensures FoldDb(dispatch, db, requests[..k + 1]) == FoldDb(dispatch, db', rest[..k])
        {
          FoldFirst(dispatch, db, requests, k);
        }
        if |more| < |rest| {
          FoldFirst(dispatch, db, requests, |more|);
          FoldFirst(dispatch, db, requests, |more| + 1);
        }
        var replies := Answers(dispatch, db, requests).0;
        assert replies == [response] + more;
        forall k | 0 <= k < |replies|
          ensures IsReply(dispatch(FoldDb(dispatch, db, requests[..k]), requests[k]).1, requests[k], replies[k])
        {
          if k > 0 { assert replies[k] == more[k - 1] && requests[k] == rest[k - 1]; }
        }
      }
    }
  }

  lemma FoldFirst<Db>(dispatch: Dispatch<Db>, db: Db, requests: seq<Document>, k: nat)
    requires k < |requests|
    ensures FoldDb(dispatch, db, requests[..k + 1])
      == FoldDb(dispatch, dispatch(db, requests[0]).0, requests[1..][..k])
  {
    assert requests[..k + 1][1..] == requests[1..][..k];
  }

  /** The reply to bytes that are refused; none to a stream that ends. */
  function LastReply(received: Received): seq<Document> {
    if received.Refused? then [map["request_id" := Null, "ok" := Bool(false), "error" := Str(received.error)]] else []
  }

  /** Whole frames and then bytes that are no frame: the answers to the frames, one after another, and, if the bytes are
      refused rather than cut short, one reply that names the reason, after which the connection ends. */
  lemma {:induction false} ServeFrames<Db>(dispatch: Dispatch<Db>, db: Db, ms: seq<Document>, rest: string)
    requires AllSendable(ms) && !ReadFrame(rest).0.Message?
    ensures var (replies, end) := Answers(dispatch, db, Envelopes(ms));
      Serve(dispatch, db, Frames(ms) + rest)
        == (replies + (if |replies| == |ms| then LastReply(ReadFrame(rest).0) else []), end)
    decreases |ms|
  {
    hide ReadFrame, Sendable, Frame, Envelope, Answer, EncodeFrame;
    var none: seq<Document> := [];
    if ms == [] {
      assert Frames(ms) + rest == rest && Envelopes(ms) == [];
      assert none + LastReply(ReadFrame(rest).0) == LastReply(ReadFrame(rest).0);
    } else {
      hide Serve;
      assert Frames(ms) + rest == Frame(ms[0]) + (Frames(ms[1..]) + rest);
      ReadSendable(ms[0], Frames(ms[1..]) + rest);
      ServeMessage(dispatch, db, Frames(ms) + rest, Envelope(ms[0]), Frames(ms[1..]) + rest);
      var (db', response) := Answer(dispatch, db, Envelope(ms[0]));
      ServeFrames(dispatch, db', ms[1..], rest);
      assert Envelopes(ms)[1..] == Envelopes(ms[1..]) && Envelopes(ms)[0] == Envelope(ms[0]);
      var more := Answers(dispatch, db', Envelopes(ms[1..])).0;
      var last := if |more| == |ms[1..]| then LastReply(ReadFrame(rest).0) else [];
      assert [response] + (more + last) == [response] + more + last;
      assert none + none == none;
      if EncodeFrame(response).None? {
        assert Answers(dispatch, db, Envelopes(ms)) == (none, db');
        assert Serve(dispatch, db, Frames(ms) + rest) == (none, db');
      } else {
        assert Answers(dispatch, db, Envelopes(ms)).0 == [response] + more;
        assert Serve(dispatch, db, Frames(ms) + rest).0 == [response] + (more + last);
      }
    }
  }

  // ---------- the frame format ----------

  /** A frame is four bytes, the most significant first, that hold the length of the body, and the body: the message as
      JSON, with version 1 unless it carries a version. A body of more than 8 MiB is not sent. */
  lemma FrameMeans(message: Document)
    ensures var e := Envelope(message);
      e.Keys == message.Keys + {"version"} && (forall k | k in message :: e[k] == message[k])
      && ("version" !in message ==> e["version"] == Int(1))
    ensures EncodeFrame(message).Some? <==> |Print(Obj(Envelope(message)))| <= 8388608
    ensures Sendable(message) <==>
      |Print(Obj(Envelope(message)))| <= 8388608 && ("version" in message ==> PyEq(message["version"], Int(1)))
    ensures EncodeFrame(message).Some? ==>
      var frame, body := EncodeFrame(message).value, Print(Obj(Envelope(message)));
      |frame| == 4 + |body| && frame[4..] == body
      && (frame[0] as int * 256 + frame[1] as int) * 65536 + (frame[2] as int * 256 + frame[3] as int) == |body|
      && forall i | 0 <= i < 4 :: frame[i] as int < 256
  {
    hide Print;
  }

  /** Decoding four bytes of length and a body: what is refused, and why. */
  lemma ReadFrameMeans(header: string, after: string)
    requires |header| == 4
    ensures var high, low := header[0] as int * 256 + header[1] as int, header[2] as int * 256 + header[3] as int;
      var length := high * 65536 + low;
      ReadFrame(header + after).0 ==
        if length == 0 || length > 8388608 then Refused("invalid frame length")
        else if |after| < length then EndOfFile
        else if Loads(after[..length]).None? then Refused("invalid JSON frame")
        else
          var v := Loads(after[..length]).value;
          if v.Obj? && "version" in v.fields && PyEq(v.fields["version"], Int(1)) then Message(v.fields)
          else Refused("unsupported protocol version")
  {
    hide Loads;
    assert (header + after)[..4] == header && (header + after)[4..] == after;
  }
}
