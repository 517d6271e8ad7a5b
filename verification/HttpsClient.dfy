/** The HTTPS client: one request at a time, carried through polls of a network that may answer anything. */
module HttpsClient {
  import opened Wrappers
  import U = UrlParser

  type Byte = bv8

  datatype State =
    | Idle
    | BeginSequence
    | WaitForNetwork
    | ParseRequestUrl
    | ProcessRequest
    | WaitOnDns
    | StartConnection
    | WaitForConnection
    | CloseConnection
    | WaitForSslConnect
    | SendRequest
    | WaitForResponse
    | Error

  datatype IpMode = IPv4 | IPv6

  /** A function pointer. */
  datatype Handler = Handler(address: nat)

  datatype Callbacks = Callbacks(
    bufferReceived: Option<Handler>,
    requestHandled: Option<Handler>,
    error: Option<Handler>,
    userData: nat)

  datatype Call =
    | BufferReceived(handler: Handler, data: seq<Byte>, userData: nat)
    | RequestHandled(handler: Handler, userData: nat)
    | ErrorHappened(handler: Handler, userData: nat)

  datatype DnsResult = Pending | Resolved | Failure

  /** What the network stack returns to the calls made during one poll. */
  datatype Answers = Answers(
    networkAvailable: bool,
    timedOut: bool,
    urlParsed: bool,
    isIPv4Address: bool,
    isIPv6Address: bool,
    dnsStarted: bool,
    dns: DnsResult,
    socketOpened: bool,
    connected: bool,
    encrypting: bool,
    negotiating: bool,
    secure: bool,
    writeReady: bool,
    allWritten: bool,
    readReady: bool,
    wasReset: bool,
    received: seq<Byte>)

  // The fields of the client, and how many sockets are open in the network stack.
  datatype Client = Client(
    state: State,
    url: string,
    callbacks: Callbacks,
    ipModeConfig: IpMode,
    ipMode: IpMode,
    dnsQueryIpMode: IpMode,
    openSockets: nat)

  const SECURE_SCHEME := "https://"
  const MAX_URL := 128

  /** As much of a URL as the client's buffer holds in front of the terminator. */
  function Stored(url: string): string {
    if |url| < MAX_URL then url else url[..MAX_URL - 1]
  }

  const MAX_URL_PATH := 64

  /**
   * The buffer of the URL has the spare cell that parsing may read exactly if the URL has at most 126 characters. With
   * more of them, copying the path and what follows it stays inside exactly if its own buffer is too small for it.
   */
  lemma UrlBufferIsEnough(url: string, memory: seq<char>, suffix: string)
    requires |memory| == MAX_URL && U.IsText(memory, Stored(url)) && |suffix| <= |Stored(url)|
    ensures |Stored(url)| + 2 <= |memory| <==> |url| <= 126
    ensures U.CellsRead(MAX_URL_PATH, |suffix| + 2) <= |memory[|Stored(url)| - |suffix|..]|
            <==> |url| <= 126 || |suffix| >= MAX_URL_PATH - 2
  {
    U.LastPartStaysInside(memory, Stored(url), suffix, MAX_URL_PATH);
  }

  /** Whether a poll asks for encryption and is refused. */
  predicate EncryptionRefused(c: Client, a: Answers) {
    c.state.WaitForConnection? && a.connected && SECURE_SCHEME <= c.url && !a.encrypting
  }

  /** Whether a poll could write a part of the request only. */
  predicate RequestCut(c: Client, a: Answers) {
    c.state.SendRequest? && a.writeReady && !a.allWritten
  }

  function Called(c: Client, a: Answers): seq<Call> {
    if c.state.WaitForResponse? && a.readReady && c.callbacks.bufferReceived.Some? then
      [BufferReceived(c.callbacks.bufferReceived.value, a.received, c.callbacks.userData)]
    else if c.state.WaitForResponse? && !a.readReady && a.wasReset && c.callbacks.requestHandled.Some? then
      [RequestHandled(c.callbacks.requestHandled.value, c.callbacks.userData)]
    else if c.state.Error? && c.callbacks.error.Some? then
      [ErrorHappened(c.callbacks.error.value, c.callbacks.userData)]
    else []
  }

  function Next(c: Client, a: Answers): Client {
    match c.state
    case Idle => c
    case BeginSequence => c.(state := WaitForNetwork)
    case WaitForNetwork =>
      if a.networkAvailable then c.(state := ParseRequestUrl) else if a.timedOut then c.(state := Error) else c
    case ParseRequestUrl => c.(state := if a.urlParsed then ProcessRequest else Error)
    case ProcessRequest =>
      if a.isIPv4Address then c.(ipMode := IPv4, state := StartConnection)
      else if a.isIPv6Address then c.(ipMode := IPv6, state := StartConnection)
      else c.(dnsQueryIpMode := c.ipModeConfig, state := if a.dnsStarted then WaitOnDns else Error)
    case WaitOnDns =>
      (match a.dns
       case Pending => c
       case Resolved => c.(ipMode := c.dnsQueryIpMode, state := StartConnection)
       case Failure => if c.dnsQueryIpMode.IPv6? && a.dnsStarted then c else c.(state := Error))
    case StartConnection =>
      if a.socketOpened then c.(state := WaitForConnection, openSockets := c.openSockets + 1)
      else c.(state := Error)
    case WaitForConnection =>
      if !a.connected then c
      else if !(SECURE_SCHEME <= c.url) then c.(state := SendRequest)
      else c.(state := if a.encrypting then WaitForSslConnect else CloseConnection)
    case CloseConnection => CloseSocket(c).(state := Idle)
    case WaitForSslConnect =>
      if a.negotiating then c else if a.secure then c.(state := SendRequest) else CloseSocket(c).(state := Error)
    case SendRequest =>
      if !a.writeReady then c else c.(state := if a.allWritten then WaitForResponse else Error)
    case WaitForResponse => if !a.readReady && a.wasReset then c.(state := CloseConnection) else c
    case Error => c.(state := Idle)
  }

  function CloseSocket(c: Client): Client {
    c.(openSockets := if c.openSockets == 0 then 0 else c.openSockets - 1)
  }

  function Accept(c: Client, url: string, callbacks: Callbacks): Client {
    if c.state != Idle then c else c.(url := Stored(url), callbacks := callbacks, state := BeginSequence)
  }

  // What one accepted request lives through, told without the client's state machine.

  datatype Point = Received(data: seq<Byte>) | Handled | Failed

  datatype Session = Session(callbacks: Callbacks, points: seq<Point>, refused: bool, cut: bool)

  /** A session under way has reported nothing, an error, or buffers and then at most one completion. */
  predicate InOrder(points: seq<Point>) {
    || points == [Failed]
    || (forall i :: 0 <= i < |points| ==> points[i].Received? || (points[i].Handled? && i == |points| - 1))
  }

  predicate Complete(points: seq<Point>) {
    points != [] && InOrder(points) && !points[|points| - 1].Received?
  }

  /** A session is over with a final report, or without any report if encryption was refused. */
  predicate Over(s: Session) {
    if s.refused then s.points == [] else Complete(s.points)
  }

  /** The calls the points of a session make: the requester's own handlers, none where it gave NULL. */
  function CallOf(callbacks: Callbacks, point: Point): seq<Call> {
    match point
    case Received(data) =>
      if callbacks.bufferReceived.None? then []
      else [BufferReceived(callbacks.bufferReceived.value, data, callbacks.userData)]
    case Handled =>
      if callbacks.requestHandled.None? then []
      else [RequestHandled(callbacks.requestHandled.value, callbacks.userData)]
    case Failed =>
      if callbacks.error.None? then [] else [ErrorHappened(callbacks.error.value, callbacks.userData)]
  }

  function CallsOf(callbacks: Callbacks, points: seq<Point>): seq<Call> {
    if points == [] then []
    else CallsOf(callbacks, points[..|points| - 1]) + CallOf(callbacks, points[|points| - 1])
  }

  function AllCalls(sessions: seq<Session>): seq<Call> {
    if sessions == [] then []
    else
      var s := sessions[|sessions| - 1];
      AllCalls(sessions[..|sessions| - 1]) + CallsOf(s.callbacks, s.points)
  }

  /** How many sessions had their request cut short. */
  function Cuts(sessions: seq<Session>): nat {
    if sessions == [] then 0
    else Cuts(sessions[..|sessions| - 1]) + if sessions[|sessions| - 1].cut then 1 else 0
  }

  // Runs.

  datatype Input = Poll(answers: Answers) | Submit(url: string, callbacks: Callbacks)

  /** A run so far: the client, the sessions it opened and every call it made. */
  datatype History = History(client: Client, sessions: seq<Session>, calls: seq<Call>)

  function PointOf(c: Client, a: Answers): Option<Point> {
    if c.state.WaitForResponse? && a.readReady then Some(Received(a.received))
    else if c.state.WaitForResponse? && a.wasReset then Some(Handled)
    else if c.state.Error? then Some(Failed)
    else None
  }

  function Note(s: Session, c: Client, a: Answers): Session {
    var p := PointOf(c, a);
    s.(points := if p.Some? then s.points + [p.value] else s.points,
       refused := s.refused || EncryptionRefused(c, a),
       cut := s.cut || RequestCut(c, a))
  }

  function NoteLast(sessions: seq<Session>, c: Client, a: Answers): seq<Session> {
    if sessions == [] then []
    else sessions[..|sessions| - 1] + [Note(sessions[|sessions| - 1], c, a)]
  }

  function Step(h: History, input: Input): History {
    match input
    case Poll(a) => History(Next(h.client, a), NoteLast(h.sessions, h.client, a), h.calls + Called(h.client, a))
    case Submit(url, callbacks) =>
      if h.client.state != Idle then h
      else History(Accept(h.client, url, callbacks), h.sessions + [Session(callbacks, [], false, false)], h.calls)
  }

  function Run(h: History, inputs: seq<Input>): History
    decreases |inputs|
  {
    if inputs == [] then h else Step(Run(h, inputs[..|inputs| - 1]), inputs[|inputs| - 1])
  }

  predicate HasSocket(state: State) {
    match state
    case WaitForConnection | CloseConnection | WaitForSslConnect | SendRequest | WaitForResponse => true
    case _ => false
  }

  /** What the session under way has seen, by the client's state. */
  predicate Underway(state: State, s: Session) {
    && InOrder(s.points)
    && match state
       case WaitForResponse =>
         (forall i :: 0 <= i < |s.points| ==> s.points[i].Received?) && !s.refused && !s.cut
       case CloseConnection => Over(s) && !s.cut
       case Error => s.points == [] && !s.refused
       case _ => s.points == [] && !s.refused && !s.cut
  }

  ghost predicate Protocol(h: History) {
    && (forall i :: 0 <= i < |h.sessions| - 1 ==> Over(h.sessions[i]))
    && (if h.client.state == Idle then h.sessions != [] ==> Over(h.sessions[|h.sessions| - 1])
        else
          && h.sessions != []
          && h.client.callbacks == h.sessions[|h.sessions| - 1].callbacks
          && Underway(h.client.state, h.sessions[|h.sessions| - 1]))
    && h.calls == AllCalls(h.sessions)
    && h.client.openSockets == Cuts(h.sessions) + if HasSocket(h.client.state) then 1 else 0
  }

  lemma {:induction false} PollKeepsProtocol(h: History, a: Answers)
    requires Protocol(h)
    ensures Protocol(Step(h, Poll(a)))
  {
    if h.client.state == Idle {
      IdlePoll(h, a);
    } else {
      var n := |h.sessions| - 1;
      BusyPoll(h.client, h.sessions[..n], h.sessions[n], h.calls, a);
    }
  }

  lemma IdlePoll(h: History, a: Answers)
    requires h.client.state == Idle
    ensures Step(h, Poll(a)) == h
  {
    if h.sessions != [] {
      assert NoteLast(h.sessions, h.client, a) == h.sessions;
    }
    assert h.calls + [] == h.calls;
  }

  lemma BusyPoll(c: Client, init: seq<Session>, s: Session, calls: seq<Call>, a: Answers)
    requires forall i :: 0 <= i < |init| ==> Over(init[i])
    requires c.state != Idle && c.callbacks == s.callbacks && Underway(c.state, s)
    requires calls == AllCalls(init) + CallsOf(s.callbacks, s.points)
    requires c.openSockets == Cuts(init) + (if s.cut then 1 else 0) + (if HasSocket(c.state) then 1 else 0)
    ensures Protocol(History(Next(c, a), init + [Note(s, c, a)], calls + Called(c, a)))
  {
    SessionStep(c, s, a);
    SocketStep(c, s, a, Cuts(init));
    CallsStep(c, s, a);
    ProtocolHolds(Next(c, a), init, Note(s, c, a), CallsOf(s.callbacks, s.points), Called(c, a));
  }

  lemma {:induction false} ProtocolHolds(c: Client, init: seq<Session>, s: Session, before: seq<Call>,
                                         called: seq<Call>)
    requires forall i :: 0 <= i < |init| ==> Over(init[i])
    requires c.state == Idle ==> Over(s)
    requires c.state != Idle ==> c.callbacks == s.callbacks && Underway(c.state, s)
    requires CallsOf(s.callbacks, s.points) == before + called
    requires c.openSockets == Cuts(init) + (if s.cut then 1 else 0) + (if HasSocket(c.state) then 1 else 0)
    ensures Protocol(History(c, init + [s], AllCalls(init) + before + called))
  {
    assert (init + [s])[..|init|] == init;
    assert AllCalls(init) + before + called == AllCalls(init) + (before + called);
  }

  lemma CallsStep(c: Client, s: Session, a: Answers)
    requires c.callbacks == s.callbacks
    ensures
      var t := Note(s, c, a);
      CallsOf(t.callbacks, t.points) == CallsOf(s.callbacks, s.points) + Called(c, a)
  {
    var p := PointOf(c, a);
    if p.Some? {
      assert (s.points + [p.value])[..|s.points|] == s.points;
    }
  }

  lemma SocketStep(c: Client, s: Session, a: Answers, others: nat)
    requires c.state != Idle && Underway(c.state, s)
    requires c.openSockets == others + (if s.cut then 1 else 0) + if HasSocket(c.state) then 1 else 0
    ensures
      var d, t := Next(c, a), Note(s, c, a);
      && d.openSockets == others + (if t.cut then 1 else 0) + (if HasSocket(d.state) then 1 else 0)
      && d.callbacks == c.callbacks
  {
  }

  lemma SessionStep(c: Client, s: Session, a: Answers)
    requires c.state != Idle && Underway(c.state, s)
    ensures Next(c, a).state != Idle ==> Underway(Next(c, a).state, Note(s, c, a))
    ensures Next(c, a).state == Idle ==> Over(Note(s, c, a))
    ensures Note(s, c, a).cut <==> s.cut || RequestCut(c, a)
  {
  }

  lemma SubmitKeepsProtocol(h: History, url: string, callbacks: Callbacks)
    requires Protocol(h)
    ensures Protocol(Step(h, Submit(url, callbacks)))
  {
    if h.client.state == Idle {
      var sessions := h.sessions + [Session(callbacks, [], false, false)];
      assert sessions[..|h.sessions|] == h.sessions;
      assert AllCalls(sessions) == AllCalls(h.sessions) + [];
    }
  }

  /** Every run, whatever the network answers and whenever requests come in. */
  lemma {:induction false} RunsFollowProtocol(h: History, inputs: seq<Input>)
    requires Protocol(h)
    ensures Protocol(Run(h, inputs))
    decreases |inputs|
  {
    if inputs != [] {
      RunsFollowProtocol(h, inputs[..|inputs| - 1]);
      match inputs[|inputs| - 1]
      case Poll(a) => PollKeepsProtocol(Run(h, inputs[..|inputs| - 1]), a);
      case Submit(url, callbacks) => SubmitKeepsProtocol(Run(h, inputs[..|inputs| - 1]), url, callbacks);
    }
  }

  function Initial(c: Client): History
  {
    History(c.(state := Idle, openSockets := 0), [], [])
  }

  /** When a client is idle again, each request so far has had its final report or was refused encryption,
      and the sockets left open are those of the requests cut short. */
  lemma IdleAccounts(c: Client, inputs: seq<Input>)
    ensures
      var h := Run(Initial(c), inputs);
      h.client.state == Idle ==>
        && (forall s :: s in h.sessions ==> Over(s) && (s.points == [] <==> s.refused))
        && h.calls == AllCalls(h.sessions)
        && h.client.openSockets == Cuts(h.sessions)
  {
    RunsFollowProtocol(Initial(c), inputs);
  }

  // What the network must have answered.

  /** What a request asks for on its way, one after the other. */
  datatype Stage = Network | Parsing | Address | Socket | Connection | Encryption | Security | Writing

  /** The answers that let a request pass a stage. */
  predicate Passes(a: Answers, stage: Stage) {
    match stage
    case Network => a.networkAvailable
    case Parsing => a.urlParsed
    case Address => a.isIPv4Address || a.isIPv6Address || a.dns == Resolved
    case Socket => a.socketOpened
    case Connection => a.connected
    case Encryption => a.encrypting
    case Security => a.secure && !a.negotiating
    case Writing => a.writeReady && a.allWritten
  }

  /** How far a request has come. */
  function Progress(state: State): nat {
    match state
    case Idle => 0
    case BeginSequence => 1
    case WaitForNetwork => 2
    case ParseRequestUrl => 3
    case ProcessRequest => 4
    case WaitOnDns => 5
    case StartConnection => 6
    case WaitForConnection => 7
    case WaitForSslConnect => 8
    case SendRequest => 9
    case WaitForResponse => 10
    case CloseConnection => 11
    case Error => 12
  }

  /** Whether a stage lies behind a request that has come so far. */
  predicate IsBehind(stage: Stage, state: State, secure: bool) {
    var n := Progress(state);
    n <= Progress(WaitForResponse)
    && match stage
       case Network => n > Progress(WaitForNetwork)
       case Parsing => n > Progress(ParseRequestUrl)
       case Address => n > Progress(WaitOnDns)
       case Socket => n > Progress(StartConnection)
       case Connection => n > Progress(WaitForConnection)
       case Encryption => n > Progress(WaitForConnection) && secure
       case Security => n > Progress(WaitForSslConnect) && secure
       case Writing => n > Progress(SendRequest)
  }

  /** The answers of the polls since the last submission that was accepted. */
  function Trail(h: History, inputs: seq<Input>): seq<Answers>
    decreases |inputs|
  {
    if inputs == [] then []
    else
      var before := inputs[..|inputs| - 1];
      match inputs[|inputs| - 1]
      case Poll(a) => Trail(h, before) + [a]
      case Submit(_, _) => if Run(h, before).client.state == Idle then [] else Trail(h, before)
  }

  ghost predicate Passed(trail: seq<Answers>, stage: Stage) {
    exists i :: 0 <= i < |trail| && Passes(trail[i], stage)
  }

  /** The address family is the one of a direct address, or the one configured if a name was looked up. */
  ghost predicate FamilyAnswered(c: Client, trail: seq<Answers>) {
    exists i :: 0 <= i < |trail| && AnswersFamily(trail[i], c)
  }

  predicate AnswersFamily(a: Answers, c: Client) {
    || (a.isIPv4Address && c.ipMode == IPv4)
    || (a.isIPv6Address && !a.isIPv4Address && c.ipMode == IPv6)
    || (a.dns == Resolved && c.ipMode == c.ipModeConfig)
  }

  ghost predicate OnItsWay(c: Client, trail: seq<Answers>) {
    var secure := SECURE_SCHEME <= c.url;
    && (forall stage :: IsBehind(stage, c.state, secure) ==> Passed(trail, stage))
    && (IsBehind(Address, c.state, secure) ==> FamilyAnswered(c, trail))
    && (c.state == WaitOnDns ==> c.dnsQueryIpMode == c.ipModeConfig)
  }

  lemma PassedStays(trail: seq<Answers>, a: Answers, stage: Stage)
    ensures Passed(trail + [a], stage) <==> Passed(trail, stage) || Passes(a, stage)
  {
    var more := trail + [a];
    if Passed(trail, stage) {
      var i :| 0 <= i < |trail| && Passes(trail[i], stage);
      assert more[i] == trail[i];
    }
    if Passed(more, stage) && !Passes(a, stage) {
      var i :| 0 <= i < |more| && Passes(more[i], stage);
      assert more[i] == trail[i];
    }
    assert more[|trail|] == a;
  }

  lemma FamilyStays(c: Client, d: Client, trail: seq<Answers>, a: Answers)
    requires d.ipModeConfig == c.ipModeConfig
    requires AnswersFamily(a, d) || (FamilyAnswered(c, trail) && d.ipMode == c.ipMode)
    ensures FamilyAnswered(d, trail + [a])
  {
    var more := trail + [a];
    if AnswersFamily(a, d) {
      assert more[|trail|] == a;
    } else {
      var i :| 0 <= i < |trail| && AnswersFamily(trail[i], c);
      assert more[i] == trail[i];
    }
  }

  /** What a poll that brings a request on has answered. */
  lemma PollPassesOne(c: Client, a: Answers)
    ensures var d := Next(c, a).state;
      && Progress(d) <= Progress(WaitForResponse) && Progress(d) > Progress(c.state) ==>
        match c.state
        case WaitForNetwork => d == ParseRequestUrl && a.networkAvailable
        case ParseRequestUrl => d == ProcessRequest && a.urlParsed
        case ProcessRequest => d == WaitOnDns || (d == StartConnection && (a.isIPv4Address || a.isIPv6Address))
        case WaitOnDns => d == StartConnection && a.dns == Resolved
        case StartConnection => d == WaitForConnection && a.socketOpened
        case WaitForConnection =>
          a.connected && if SECURE_SCHEME <= c.url then d == WaitForSslConnect && a.encrypting else d == SendRequest
        case WaitForSslConnect => d == SendRequest && a.secure && !a.negotiating
        case SendRequest => d == WaitForResponse && a.writeReady && a.allWritten
        case _ => d == WaitForNetwork
  {
  }

  lemma PollPasses(c: Client, a: Answers, stage: Stage, secure: bool)
    requires secure == (SECURE_SCHEME <= c.url)
    ensures IsBehind(stage, Next(c, a).state, secure) ==> IsBehind(stage, c.state, secure) || Passes(a, stage)
  {
    PollPassesOne(c, a);
  }

  lemma PollKeepsFamily(c: Client, a: Answers)
    requires c.state == WaitOnDns ==> c.dnsQueryIpMode == c.ipModeConfig
    ensures var d := Next(c, a);
      && d.url == c.url && d.ipModeConfig == c.ipModeConfig
      && (IsBehind(Address, d.state, false) ==>
            AnswersFamily(a, d) || (IsBehind(Address, c.state, false) && d.ipMode == c.ipMode))
      && (d.state == WaitOnDns ==> d.dnsQueryIpMode == d.ipModeConfig)
  {
  }

  lemma PollGoesOn(c: Client, trail: seq<Answers>, a: Answers)
    requires OnItsWay(c, trail)
    ensures OnItsWay(Next(c, a), trail + [a])
  {
    var d, secure := Next(c, a), SECURE_SCHEME <= c.url;
    PollKeepsFamily(c, a);
    forall stage | IsBehind(stage, d.state, secure)
      ensures Passed(trail + [a], stage)
    {
      PollPasses(c, a, stage, secure);
      PassedStays(trail, a, stage);
    }
    if IsBehind(Address, d.state, secure) {
      FamilyStays(c, d, trail, a);
    }
  }

  /**
   * In every run from an idle client: a request has got as far as it has only because the network answered so since
   * it was accepted. In particular none for a secure URL is sent but over a connection found secure.
   */
  lemma {:induction false} EveryStageIsPassed(h: History, inputs: seq<Input>)
    requires h.client.state == Idle
    ensures OnItsWay(Run(h, inputs).client, Trail(h, inputs))
    decreases |inputs|
  {
    if inputs != [] {
      var before := inputs[..|inputs| - 1];
      EveryStageIsPassed(h, before);
      match inputs[|inputs| - 1]
      case Poll(a) => PollGoesOn(Run(h, before).client, Trail(h, before), a);
      case Submit(url, callbacks) =>
    }
  }

  lemma SecureRequestsAreSecured(h: History, inputs: seq<Input>)
    requires h.client.state == Idle
    ensures var c := Run(h, inputs).client;
      (c.state == SendRequest || c.state == WaitForResponse) && SECURE_SCHEME <= c.url ==>
        Passed(Trail(h, inputs), Security)
  {
    EveryStageIsPassed(h, inputs);
    assert IsBehind(Security, SendRequest, true) && IsBehind(Security, WaitForResponse, true);
  }

  /** The answers that a request does not survive, except that encryption is refused. */
  predicate Fails(c: Client, a: Answers) {
    match c.state
    case WaitForNetwork => !a.networkAvailable && a.timedOut
    case ParseRequestUrl => !a.urlParsed
    case ProcessRequest => !a.isIPv4Address && !a.isIPv6Address && !a.dnsStarted
    case WaitOnDns => a.dns == Failure && (c.dnsQueryIpMode == IPv4 || !a.dnsStarted)
    case StartConnection => !a.socketOpened
    case WaitForSslConnect => !a.negotiating && !a.secure
    case SendRequest => a.writeReady && !a.allWritten
    case _ => false
  }

  lemma FailingPoll(c: Client, s: Session, a: Answers)
    requires Fails(c, a) && Underway(c.state, s)
    ensures Next(c, a).state == Error && Called(c, a) == []
    ensures Note(s, c, a) == s.(cut := RequestCut(c, a)) && s.points == []
  {
  }

  lemma FailingStep(h: History, a: Answers)
    requires Protocol(h) && Fails(h.client, a)
    ensures h.sessions != [] && h.sessions[|h.sessions| - 1].points == []
    ensures
      var g, s := Step(h, Poll(a)), h.sessions[|h.sessions| - 1];
      && Protocol(g) && g.client.state == Error && g.calls == h.calls
      && g.sessions == h.sessions[..|h.sessions| - 1] + [s.(cut := RequestCut(h.client, a))]
  {
    FailingPoll(h.client, h.sessions[|h.sessions| - 1], a);
    PollKeepsProtocol(h, a);
    assert h.calls + [] == h.calls;
  }

  lemma ErrorStep(g: History, init: seq<Session>, t: Session, b: Answers)
    requires Protocol(g) && g.client.state == Error && g.sessions == init + [t] && t.points == []
    ensures
      var r := Step(g, Poll(b));
      && Protocol(r) && r.client.state == Idle && r.calls == g.calls + CallOf(t.callbacks, Failed)
      && r.sessions == init + [t.(points := [Failed])] && r.client.openSockets == Cuts(r.sessions)
  {
    PollKeepsProtocol(g, b);
    assert g.sessions[..|init|] == init;
    assert Note(t, g.client, b) == t.(points := [Failed]);
  }

  lemma CutsOf(init: seq<Session>, s: Session)
    ensures Cuts(init + [s]) == Cuts(init) + if s.cut then 1 else 0
  {
    assert (init + [s])[..|init|] == init;
  }

  /** The answers that leave a request where it is. */
  predicate Waits(c: Client, a: Answers) {
    match c.state
    case WaitForNetwork => !a.networkAvailable && !a.timedOut
    case WaitOnDns => a.dns == Pending || (a.dns == Failure && c.dnsQueryIpMode == IPv6 && a.dnsStarted)
    case WaitForConnection => !a.connected
    case WaitForSslConnect => a.negotiating
    case SendRequest => !a.writeReady
    case WaitForResponse => a.readReady || !a.wasReset
    case _ => false
  }

  /** A poll of a request under way leaves it where it is, fails it, or brings it on, exactly as the answers say. */
  lemma PollOutcome(c: Client, a: Answers)
    requires c.state != Idle
    ensures Next(c, a) == c <==> Waits(c, a)
    ensures c.state != Error ==> (Next(c, a).state == Error <==> Fails(c, a))
    ensures c.state == Error || c.state == CloseConnection ==> Next(c, a).state == Idle
    ensures c.state != Error && c.state != CloseConnection && !Waits(c, a) ==>
              Progress(Next(c, a).state) > Progress(c.state)
    ensures Next(c, a).state == CloseConnection <==>
            EncryptionRefused(c, a) || (c.state == WaitForResponse && !Waits(c, a))
  {
  }

  /** Each of them ends the request at the next poll, with one error reported and no socket open but of cut requests. */
  lemma FailureIsReported(h: History, a: Answers, b: Answers)
    requires Protocol(h) && Fails(h.client, a)
    ensures
      var r := Step(Step(h, Poll(a)), Poll(b));
      var s := h.sessions[|h.sessions| - 1];
      && r.client.state == Idle && r.calls == h.calls + CallOf(s.callbacks, Failed)
      && r.sessions == h.sessions[..|h.sessions| - 1] + [s.(points := [Failed], cut := RequestCut(h.client, a))]
      && r.client.openSockets == Cuts(r.sessions)
      && Cuts(r.sessions) == Cuts(h.sessions[..|h.sessions| - 1]) + if RequestCut(h.client, a) then 1 else 0
  {
    FailingStep(h, a);
    var init, s := h.sessions[..|h.sessions| - 1], h.sessions[|h.sessions| - 1];
    ErrorStep(Step(h, Poll(a)), init, s.(cut := RequestCut(h.client, a)), b);
    CutsOf(init, s.(points := [Failed], cut := RequestCut(h.client, a)));
  }

  // A network that always answers at once and delivers the given chunks.

  function Cooperative(readReady: bool, received: seq<Byte>): Answers {
    Answers(true, false, true, true, false, true, Resolved, true, true, true, false, true, true, true,
            readReady, true, received)
  }

  function Polls(n: nat): seq<Input> {
    seq(n, _ => Poll(Cooperative(false, [])))
  }

  function Deliveries(chunks: seq<seq<Byte>>): seq<Input> {
    seq(|chunks|, i requires 0 <= i < |chunks| => Poll(Cooperative(true, chunks[i])))
  }

  function Points(chunks: seq<seq<Byte>>): seq<Point> {
    seq(|chunks|, i requires 0 <= i < |chunks| => Received(chunks[i]))
  }

  /** How many polls a cooperative network needs before the request has been sent. */
  function PollsToSend(url: string): nat {
    if SECURE_SCHEME <= url then 8 else 7
  }

  lemma {:induction false} RunSplits(h: History, first: seq<Input>, second: seq<Input>)
    ensures Run(h, first + second) == Run(Run(h, first), second)
    decreases |second|
  {
    if second == [] {
      assert first + second == first;
    } else {
      var init := second[..|second| - 1];
      assert (first + second)[..|first + second| - 1] == first + init;
      RunSplits(h, first, init);
    }
  }

  lemma OnePoll(h: History, n: nat)
    requires n > 0
    ensures Run(h, Polls(n)) == Step(Run(h, Polls(n - 1)), Poll(Cooperative(false, [])))
  {
    assert Polls(n)[..|Polls(n)| - 1] == Polls(n - 1);
  }

  function StateAfter(k: nat, url: string): State {
    match k
    case 0 => BeginSequence
    case 1 => WaitForNetwork
    case 2 => ParseRequestUrl
    case 3 => ProcessRequest
    case 4 => StartConnection
    case 5 => WaitForConnection
    case 6 => if SECURE_SCHEME <= url then WaitForSslConnect else SendRequest
    case 7 => if SECURE_SCHEME <= url then SendRequest else WaitForResponse
    case _ => WaitForResponse
  }

  /** The client is in the given state, serving a request accepted after the run h. */
  predicate Serving(g: History, h: History, state: State, url: string, s: Session) {
    && g.client.state == state && g.client.url == url && g.client.callbacks == s.callbacks
    && g.calls == h.calls + CallsOf(s.callbacks, s.points)
    && g.sessions == h.sessions + [s]
  }

  lemma RequestStays(c: Client, a: Answers)
    ensures Next(c, a).url == c.url && Next(c, a).callbacks == c.callbacks
  {
  }

  lemma ServingStep(g: History, h: History, url: string, s: Session, a: Answers)
    requires Serving(g, h, g.client.state, url, s)
    ensures Serving(Step(g, Poll(a)), h, Next(g.client, a).state, url, Note(s, g.client, a))
  {
    CallsStep(g.client, s, a);
    assert g.sessions[..|g.sessions| - 1] == h.sessions;
    RequestStays(g.client, a);
  }

  lemma NextState(c: Client, k: nat, url: string)
    requires k < PollsToSend(url) && c.state == StateAfter(k, url) && c.url == url
    ensures Next(c, Cooperative(false, [])).state == StateAfter(k + 1, url)
    ensures PointOf(c, Cooperative(false, [])).None? && !EncryptionRefused(c, Cooperative(false, []))
      && !RequestCut(c, Cooperative(false, []))
  {
  }

  lemma {:induction false} RequestIsSent(h: History, url: string, callbacks: Callbacks, k: nat)
    requires h.client.state == Idle && k <= PollsToSend(Stored(url))
    ensures
      Serving(Run(Step(h, Submit(url, callbacks)), Polls(k)), h, StateAfter(k, Stored(url)), Stored(url),
              Session(callbacks, [], false, false))
  {
    if k > 0 {
      var s := Session(callbacks, [], false, false);
      var g := Run(Step(h, Submit(url, callbacks)), Polls(k - 1));
      RequestIsSent(h, url, callbacks, k - 1);
      OnePoll(Step(h, Submit(url, callbacks)), k);
      NextState(g.client, k - 1, Stored(url));
      ServingStep(g, h, Stored(url), s, Cooperative(false, []));
      assert Note(s, g.client, Cooperative(false, [])) == s;
    } else {
      assert Polls(0) == [];
    }
  }

  lemma {:induction false} ChunksArrive(g: History, h: History, url: string, callbacks: Callbacks,
                                        chunks: seq<seq<Byte>>)
    requires Serving(g, h, WaitForResponse, url, Session(callbacks, [], false, false))
    ensures
      Serving(Run(g, Deliveries(chunks)), h, WaitForResponse, url, Session(callbacks, Points(chunks), false, false))
    decreases |chunks|
  {
    if chunks == [] {
      assert Points(chunks) == [];
    } else {
      var init, last := chunks[..|chunks| - 1], chunks[|chunks| - 1];
      ChunksArrive(g, h, url, callbacks, init);
      assert Deliveries(chunks)[..|Deliveries(chunks)| - 1] == Deliveries(init);
      ChunkArrives(Run(g, Deliveries(init)), h, url, Session(callbacks, Points(init), false, false), last);
      assert Points(chunks) == Points(init) + [Received(last)];
    }
  }

  lemma ChunkArrives(g: History, h: History, url: string, s: Session, chunk: seq<Byte>)
    requires Serving(g, h, WaitForResponse, url, s)
    ensures
      Serving(Step(g, Poll(Cooperative(true, chunk))), h, WaitForResponse, url,
              s.(points := s.points + [Received(chunk)]))
  {
    ServingStep(g, h, url, s, Cooperative(true, chunk));
  }

  /** An accepted request on a network that delivers: its requester gets exactly the chunks in order and then
      one completion, and the client is idle again. */
  lemma ResponseIsDelivered(h: History, url: string, callbacks: Callbacks, chunks: seq<seq<Byte>>)
    requires h.client.state == Idle
    ensures
      var inputs := [Submit(url, callbacks)] + Polls(PollsToSend(Stored(url))) + Deliveries(chunks) + Polls(2);
      Serving(Run(h, inputs), h, Idle, Stored(url), Session(callbacks, Points(chunks) + [Handled], false, false))
  {
    var sent := Polls(PollsToSend(Stored(url)));
    RunInFour(h, Submit(url, callbacks), sent, Deliveries(chunks), Polls(2));
    AllChunksArrive(h, url, callbacks, chunks);
    LastPolls(Run(Run(Step(h, Submit(url, callbacks)), sent), Deliveries(chunks)), h, Stored(url),
              Session(callbacks, Points(chunks), false, false));
  }

  lemma AllChunksArrive(h: History, url: string, callbacks: Callbacks, chunks: seq<seq<Byte>>)
    requires h.client.state == Idle
    ensures
      Serving(Run(Run(Step(h, Submit(url, callbacks)), Polls(PollsToSend(Stored(url)))), Deliveries(chunks)), h,
              WaitForResponse, Stored(url), Session(callbacks, Points(chunks), false, false))
  {
    var sent := Polls(PollsToSend(Stored(url)));
    RequestIsSent(h, url, callbacks, PollsToSend(Stored(url)));
    ChunksArrive(Run(Step(h, Submit(url, callbacks)), sent), h, Stored(url), callbacks, chunks);
  }

  /** The same network, except that it does not start encrypting. */
  const REFUSING: Answers := Cooperative(false, []).(encrypting := false)

  lemma EncryptionIsRefused(g: History, h: History, url: string, s: Session)
    requires Serving(g, h, WaitForConnection, url, s) && SECURE_SCHEME <= url && s.points == []
    ensures Serving(Run(g, [Poll(REFUSING)]), h, CloseConnection, url, s.(refused := true))
  {
    OneInput(g, Poll(REFUSING));
    ServingStep(g, h, url, s, REFUSING);
    assert Note(s, g.client, REFUSING) == s.(refused := true);
  }

  lemma RefusedIsIdle(g: History, h: History, url: string, s: Session)
    requires Serving(g, h, CloseConnection, url, s) && s.refused
    ensures Serving(Run(g, [Poll(REFUSING)]), h, Idle, url, s)
  {
    OneInput(g, Poll(REFUSING));
    ServingStep(g, h, url, s, REFUSING);
    assert Note(s, g.client, REFUSING) == s;
  }

  lemma RefusedPolls(g: History, h: History, url: string, callbacks: Callbacks)
    requires Serving(g, h, WaitForConnection, url, Session(callbacks, [], false, false)) && SECURE_SCHEME <= url
    ensures var r := Run(Run(g, [Poll(REFUSING)]), [Poll(REFUSING)]);
      Serving(r, h, Idle, url, Session(callbacks, [], true, false)) && r.calls == h.calls
  {
    var s := Session(callbacks, [], false, false);
    EncryptionIsRefused(g, h, url, s);
    RefusedIsIdle(Run(g, [Poll(REFUSING)]), h, url, s.(refused := true));
    assert h.calls + CallsOf(callbacks, []) == h.calls;
  }

  lemma SecureRequestConnects(h: History, url: string, callbacks: Callbacks)
    requires h.client.state == Idle && SECURE_SCHEME <= url
    ensures SECURE_SCHEME <= Stored(url)
    ensures
      Serving(Run(Step(h, Submit(url, callbacks)), Polls(5)), h, WaitForConnection, Stored(url),
              Session(callbacks, [], false, false))
  {
    RequestIsSent(h, url, callbacks, 5);
  }

  /** There are runs that end a request without any report: any secure request on a network that refuses encryption. */
  lemma RequestEndsSilently(h: History, url: string, callbacks: Callbacks)
    requires h.client.state == Idle && SECURE_SCHEME <= url
    ensures
      var r := Run(h, [Submit(url, callbacks)] + Polls(5) + [Poll(REFUSING)] + [Poll(REFUSING)]);
      Serving(r, h, Idle, Stored(url), Session(callbacks, [], true, false)) && r.calls == h.calls
  {
    RunInFour(h, Submit(url, callbacks), Polls(5), [Poll(REFUSING)], [Poll(REFUSING)]);
    SecureRequestConnects(h, url, callbacks);
    RefusedPolls(Run(Step(h, Submit(url, callbacks)), Polls(5)), h, Stored(url), callbacks);
  }

  lemma OneInput(h: History, i: Input)
    ensures Run(h, [i]) == Step(h, i)
  {
    assert [i][..0] == [];
    assert Run(h, [i]) == Step(Run(h, []), i);
  }

  lemma RunInFour(h: History, i: Input, a: seq<Input>, b: seq<Input>, c: seq<Input>)
    ensures Run(h, [i] + a + b + c) == Run(Run(Run(Step(h, i), a), b), c)
  {
    RunSplits(h, [i] + a + b, c);
    RunSplits(h, [i] + a, b);
    RunSplits(h, [i], a);
    OneInput(h, i);
  }

  lemma LastPolls(g: History, h: History, url: string, s: Session)
    requires Serving(g, h, WaitForResponse, url, s)
    ensures Serving(Run(g, Polls(2)), h, Idle, url, s.(points := s.points + [Handled]))
  {
    OnePoll(g, 2);
    OnePoll(g, 1);
    assert Polls(0) == [];
    ServerCloses(g, h, url, s);
    ClientIsIdle(Run(g, Polls(1)), h, url, s.(points := s.points + [Handled]));
  }

  lemma ServerCloses(g: History, h: History, url: string, s: Session)
    requires Serving(g, h, WaitForResponse, url, s)
    ensures
      Serving(Step(g, Poll(Cooperative(false, []))), h, CloseConnection, url, s.(points := s.points + [Handled]))
  {
    ServingStep(g, h, url, s, Cooperative(false, []));
  }

  lemma ClientIsIdle(g: History, h: History, url: string, s: Session)
    requires Serving(g, h, CloseConnection, url, s)
    ensures Serving(Step(g, Poll(Cooperative(false, []))), h, Idle, url, s)
  {
    ServingStep(g, h, url, s, Cooperative(false, []));
  }

  /** The same network, except that it never takes a whole request. */
  const CUTTING: Answers := Cooperative(false, []).(allWritten := false)

  lemma RequestIsCut(g: History, h: History, url: string, callbacks: Callbacks)
    requires Serving(g, h, SendRequest, url, Session(callbacks, [], false, false))
    ensures Serving(Run(Run(g, [Poll(CUTTING)]), [Poll(CUTTING)]), h, Idle, url,
                    Session(callbacks, [Failed], false, true))
  {
    var s := Session(callbacks, [], false, false);
    OneInput(g, Poll(CUTTING));
    ServingStep(g, h, url, s, CUTTING);
    var failing := Run(g, [Poll(CUTTING)]);
    OneInput(failing, Poll(CUTTING));
    ServingStep(failing, h, url, s.(cut := true), CUTTING);
    assert Note(s.(cut := true), failing.client, CUTTING) == s.(points := [Failed], cut := true);
  }

  /** There are runs that leave a socket open: any request of which the network takes a part only. */
  lemma CutRequestLeavesSocket(h: History, url: string, callbacks: Callbacks)
    requires Protocol(h) && h.client.state == Idle
    ensures
      var sent := PollsToSend(Stored(url)) - 1;
      var r := Run(h, [Submit(url, callbacks)] + Polls(sent) + [Poll(CUTTING)] + [Poll(CUTTING)]);
      Serving(r, h, Idle, Stored(url), Session(callbacks, [Failed], false, true))
      && r.client.openSockets == h.client.openSockets + 1
  {
    var sent := PollsToSend(Stored(url)) - 1;
    var inputs := [Submit(url, callbacks)] + Polls(sent) + [Poll(CUTTING)] + [Poll(CUTTING)];
    RunInFour(h, Submit(url, callbacks), Polls(sent), [Poll(CUTTING)], [Poll(CUTTING)]);
    RequestIsSent(h, url, callbacks, sent);
    RequestIsCut(Run(Step(h, Submit(url, callbacks)), Polls(sent)), h, Stored(url), callbacks);
    RunsFollowProtocol(h, inputs);
    CutsOf(h.sessions, Session(callbacks, [Failed], false, true));
  }

  class AppHTTPSClientData {
    var state: State
    var requestUrl: string
    var callbacks: Callbacks
    var ipModeConfig: IpMode
    var ipMode: IpMode
    var dnsQueryIpMode: IpMode
    ghost var openSockets: nat

    ghost function Snapshot(): Client
      reads this
    {
      Client(state, requestUrl, callbacks, ipModeConfig, ipMode, dnsQueryIpMode, openSockets)
    }

    constructor ()
      ensures Snapshot() == Client(Idle, requestUrl, callbacks, IPv4, ipMode, dnsQueryIpMode, 0)
    {
      state, ipModeConfig, openSockets := Idle, IPv4, 0;
      requestUrl, callbacks := "", Callbacks(None, None, None, 0);
      ipMode, dnsQueryIpMode := IPv4, IPv4;
    }

    method EnterErrorState()
      modifies `state
      ensures state == Error
    {
      state := Error;
    }

    method CloseOpenSocket()
      modifies `openSockets
      ensures Snapshot() == CloseSocket(old(Snapshot()))
    {
      openSockets := if openSockets == 0 then 0 else openSockets - 1;
    }

    method WaitForNetworkAvailable(a: Answers)
      requires state == WaitForNetwork
      modifies this
      ensures Snapshot() == Next(old(Snapshot()), a)
    {
      if a.networkAvailable {
        state := ParseRequestUrl;
      } else if a.timedOut {
        EnterErrorState();
      }
    }

    method ProcessTheRequest(a: Answers)
      requires state == ProcessRequest
      modifies this
      ensures Snapshot() == Next(old(Snapshot()), a)
    {
      if a.isIPv4Address {
        ipMode, state := IPv4, StartConnection;
      } else if a.isIPv6Address {
        ipMode, state := IPv6, StartConnection;
      } else {
        match ipModeConfig {
          case IPv6 => dnsQueryIpMode := IPv6;
          case IPv4 => dnsQueryIpMode := IPv4;
        }
        if a.dnsStarted {
          state := WaitOnDns;
        } else {
          EnterErrorState();
        }
      }
    }

    method CheckDnsResolveStatus(a: Answers)
      requires state == WaitOnDns
      modifies this
      ensures Snapshot() == Next(old(Snapshot()), a)
    {
      match a.dns {
        case Pending =>
        case Resolved =>
          match dnsQueryIpMode {
            case IPv4 => ipMode := IPv4;
            case IPv6 => ipMode := IPv6;
          }
          state := StartConnection;
        case Failure =>
          if dnsQueryIpMode == IPv6 {
            if a.dnsStarted {
              state := WaitOnDns;
            } else {
              EnterErrorState();
            }
          } else {
            EnterErrorState();
          }
      }
    }

    method StartNetworkConnection(a: Answers)
      requires state == StartConnection
      modifies this
      ensures Snapshot() == Next(old(Snapshot()), a)
    {
      if !a.socketOpened {
        EnterErrorState();
        return;
      }
      openSockets := openSockets + 1;
      state := WaitForConnection;
    }

    method WaitNetworkConnection(a: Answers)
      requires state == WaitForConnection
      modifies this
      ensures Snapshot() == Next(old(Snapshot()), a)
    {
      if !a.connected {
        return;
      }
      if SECURE_SCHEME <= requestUrl {
        if !a.encrypting {
          state := CloseConnection;
        } else {
          state := WaitForSslConnect;
        }
      } else {
        state := SendRequest;
      }
    }

    method CloseNetworkConnection(a: Answers)
      requires state == CloseConnection
      modifies this
      ensures Snapshot() == Next(old(Snapshot()), a)
    {
      CloseOpenSocket();
      state := Idle;
    }

    method WaitForSsl(a: Answers)
      requires state == WaitForSslConnect
      modifies this
      ensures Snapshot() == Next(old(Snapshot()), a)
    {
      if a.negotiating {
        return;
      }
      if !a.secure {
        CloseOpenSocket();
        EnterErrorState();
        return;
      }
      state := SendRequest;
    }

    method SendTheRequest(a: Answers)
      requires state == SendRequest
      modifies this
      ensures Snapshot() == Next(old(Snapshot()), a)
    {
      if !a.writeReady {
        return;
      }
      if !a.allWritten {
        EnterErrorState();
        return;
      }
      state := WaitForResponse;
    }

    method WaitForTheResponse(a: Answers) returns (calls: seq<Call>)
      requires state == WaitForResponse
      modifies this
      ensures Snapshot() == Next(old(Snapshot()), a) && calls == Called(old(Snapshot()), a)
    {
      calls := [];
      if !a.readReady {
        if a.wasReset {
          if callbacks.requestHandled.Some? {
            calls := [RequestHandled(callbacks.requestHandled.value, callbacks.userData)];
          }
          state := CloseConnection;
        }
        return;
      }
      if callbacks.bufferReceived.Some? {
        calls := [BufferReceived(callbacks.bufferReceived.value, a.received, callbacks.userData)];
      }
    }

    method HandleError(a: Answers) returns (calls: seq<Call>)
      requires state == Error
      modifies this
      ensures Snapshot() == Next(old(Snapshot()), a) && calls == Called(old(Snapshot()), a)
    {
      calls := [];
      if callbacks.error.Some? {
        calls := [ErrorHappened(callbacks.error.value, callbacks.userData)];
      }
      state := Idle;
    }

    /** One poll; the result lists the callbacks it made. */
    method Tasks(a: Answers) returns (calls: seq<Call>)
      modifies this
      ensures Snapshot() == Next(old(Snapshot()), a) && calls == Called(old(Snapshot()), a)
    {
      calls := [];
      match state {
        case Idle =>
        case BeginSequence => state := WaitForNetwork;
        case WaitForNetwork => WaitForNetworkAvailable(a);
        case ParseRequestUrl =>
          if !a.urlParsed {
            EnterErrorState();
          } else {
            state := ProcessRequest;
          }
        case ProcessRequest => ProcessTheRequest(a);
        case WaitOnDns => CheckDnsResolveStatus(a);
        case StartConnection => StartNetworkConnection(a);
        case WaitForConnection => WaitNetworkConnection(a);
        case CloseConnection => CloseNetworkConnection(a);
        case WaitForSslConnect => WaitForSsl(a);
        case SendRequest => SendTheRequest(a);
        case WaitForResponse => calls := WaitForTheResponse(a);
        case Error => calls := HandleError(a);
      }
    }

    method IsBusy() returns (busy: bool)
      ensures busy <==> Snapshot().state != Idle
    {
      return state != Idle;
    }

    method Request(url: string, callbacks: Callbacks) returns (accepted: bool)
      modifies this
      ensures Snapshot() == Accept(old(Snapshot()), url, callbacks)
      ensures accepted <==> old(Snapshot()).state == Idle
    {
      var busy := IsBusy();
      if busy {
        return false;
      }
      requestUrl := if |url| < MAX_URL then url else url[..MAX_URL - 1];
      this.callbacks := callbacks;
      state := BeginSequence;
      return true;
    }
  }
}
