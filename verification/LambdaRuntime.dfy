/** The invocation loop of packages/bun-lambda/runtime.ts: one main loop that races each request
    against a timer, while handlers that lost their race keep running beside later requests. */
module LambdaRuntime {
  import opened Wrappers

  type RequestId = int
  type ConnectionId = int

  // ---- The server's counters and sockets ------------------------------------------------------

  /** repeated: upgrades of a connection that was open already; late: disconnects that ended when
      their connection was gone already. These two count events; the source does not store them. */
  datatype Server = Server(
    pendingRequests: int, pendingWebSockets: int, webSockets: set<ConnectionId>, upgrade: bool,
    repeated: nat, late: nat)

  const NEW_SERVER := Server(0, 0, {}, false, 0, 0)

  function EnterFetch(s: Server): Server { s.(pendingRequests := s.pendingRequests + 1) }

  function LeaveFetch(s: Server): Server { s.(pendingRequests := s.pendingRequests - 1, upgrade := false) }

  /** connection: that of the request, if it is a web socket upgrade event. */
  function Upgrade(s: Server, connection: Option<ConnectionId>): Server {
    match connection
    case None => s.(upgrade := true)
    case Some(c) =>
      s.(upgrade := true, webSockets := s.webSockets + {c}, pendingWebSockets := s.pendingWebSockets + 1,
         repeated := s.repeated + if c in s.webSockets then 1 else 0)
  }

  function EndDisconnect(s: Server, c: ConnectionId): Server {
    s.(webSockets := s.webSockets - {c}, pendingWebSockets := s.pendingWebSockets - 1,
       late := s.late + if c in s.webSockets then 0 else 1)
  }

  // ---- Handlers -------------------------------------------------------------------------------

  datatype Request = Http | Connect(c: ConnectionId) | Message(c: ConnectionId) | Disconnect(c: ConnectionId)

  /** How an invocation's promise settles; a handler never settles with undefined. */
  datatype Settled = Value | Error

  datatype Phase =
    | InFetch                      // inside `fetch`, in the user's fetch
    | InErrorCallback              // inside `fetch`, in the user's error callback
    | AfterFetch(isUpgrade: bool)  // `fetch` returned a response, of status 101 or not
    | InCallback                   // in the user's open or message
    | Closing(c: ConnectionId)     // in the user's close
    | Formatting                   // reading the response
    | Finished(settled: Settled)

  /** entered: whether the event was given to `fetch`, and so to the user. */
  datatype Handler = Handler(request: Request, entered: bool, phase: Phase)

  predicate InsideFetch(h: Handler) { h.phase.InFetch? || h.phase.InErrorCallback? }

  /** The user's web socket callbacks: none at all, or with or without the one for the event. */
  datatype Callbacks = NoCallbacks | WithCallback | WithoutCallback

  /** `#acceptWebSocket`, to its first await. */
  function SocketEvent(s: Server, request: Request, callbacks: Callbacks): (Server, Phase)
    requires !request.Http?
  {
    if request.c !in s.webSockets || callbacks.NoCallbacks? then (s, Finished(Value))
    else if request.Disconnect? then
      if callbacks.WithCallback? then (s, Closing(request.c)) else (EndDisconnect(s, request.c), Finished(Value))
    else if callbacks.WithCallback? then (s, InCallback)
    else (s, Finished(Value))
  }

  // ---- The whole process ----------------------------------------------------------------------

  datatype PostKind = Response | RequestError | TimeoutError

  datatype Post = Post(requestId: Option<RequestId>, kind: PostKind)

  datatype Main =
    | Receiving
    | Racing(handler: nat)
    | Posting(kind: PostKind)
    | AwaitingPost
    | Exited

  datatype Winner = Timer | HandlerValue | HandlerError

  datatype Process = Process(
    server: Server, handlers: seq<Handler>, main: Main, requestId: Option<RequestId>,
    received: seq<RequestId>, winners: seq<Winner>, posts: seq<Post>)

  const START := Process(NEW_SERVER, [], Receiving, None, [], [], [])

  datatype UserOutcome = Returns(isUpgrade: bool) | ReturnsUndefined | ThrowsError

  /** Everything that can happen next. The choices that depend on user code, on the network or on
      the clock are arguments. asHttp: a web socket event without `version: "0"` passes for an HTTP
      event, and goes through `fetch` whatever its type. */
  datatype Step =
    | Receive(id: RequestId, request: Request, asHttp: bool, malformed: bool, callbacks: Callbacks)
    | UserFetchSettles(h: nat, outcome: UserOutcome, hasErrorCallback: bool)
    | ErrorCallbackSettles(h: nat, outcome: UserOutcome)
    | Continue(h: nat, callbacks: Callbacks)
    | CallbackSettles(h: nat, throws: bool)
    | FormatSettles(h: nat, throws: bool)
    | UserUpgrades(connection: Option<ConnectionId>)
    | TimerFires
    | RaceEnds
    | SendPost
    | PostSettles(ok: bool)
    | Stop

  predicate AtPhase(p: Process, h: nat, ph: Phase) { h < |p.handlers| && p.handlers[h].phase == ph }

  /** The user has been given the server and a request; connection: that of a CONNECT request. */
  predicate CanUpgrade(p: Process, connection: Option<ConnectionId>) {
    exists h | 0 <= h < |p.handlers| ::
      p.handlers[h].entered && (connection.Some? ==> p.handlers[h].request == Connect(connection.value))
  }

  predicate Enabled(p: Process, step: Step) {
    !p.main.Exited? &&
    match step
    case Receive(_, _, _, _, _) => p.main.Receiving?
    case UserFetchSettles(h, _, _) => AtPhase(p, h, InFetch)
    case ErrorCallbackSettles(h, outcome) => AtPhase(p, h, InErrorCallback)
    case Continue(h, _) => h < |p.handlers| && p.handlers[h].phase.AfterFetch?
    case CallbackSettles(h, _) => h < |p.handlers| && (p.handlers[h].phase.InCallback? || p.handlers[h].phase.Closing?)
    case FormatSettles(h, _) => AtPhase(p, h, Formatting)
    case UserUpgrades(connection) => CanUpgrade(p, connection)
    case TimerFires => p.main.Racing?
    case RaceEnds => p.main.Racing? && p.main.handler < |p.handlers| && p.handlers[p.main.handler].phase.Finished?
    case SendPost => p.main.Posting?
    case PostSettles(_) => p.main.AwaitingPost?
    case Stop => true
  }

  function WithPhase(p: Process, server: Server, h: nat, phase: Phase): Process
    requires h < |p.handlers|
  {
    p.(server := server, handlers := p.handlers[h := p.handlers[h].(phase := phase)])
  }

  /** Whether `formatRequest` makes a request of the event. */
  predicate IsRequest(request: Request, asHttp: bool) { asHttp || request.Http? || request.Connect? }

  function StartHandler(p: Process, request: Request, asHttp: bool, malformed: bool, callbacks: Callbacks): Process {
    var (server, phase) :=
      if malformed then (p.server, Finished(Error))
      else if IsRequest(request, asHttp) then (EnterFetch(p.server), InFetch)
      else SocketEvent(p.server, request, callbacks);
    var entered := !malformed && IsRequest(request, asHttp);
    p.(server := server, handlers := p.handlers + [Handler(request, entered, phase)])
  }

  function Next(p: Process, step: Step): Process
    requires Enabled(p, step)
  {
    match step
    case Receive(id, request, asHttp, malformed, callbacks) =>
      var q := p.(requestId := Some(id), received := p.received + [id], main := Racing(|p.handlers|));
      StartHandler(q, request, asHttp, malformed, callbacks)
    case UserFetchSettles(h, outcome, hasErrorCallback) =>
      if outcome.Returns? then WithPhase(p, LeaveFetch(p.server), h, AfterFetch(outcome.isUpgrade))
      else if outcome.ReturnsUndefined? && p.server.upgrade then WithPhase(p, LeaveFetch(p.server), h, AfterFetch(true))
      else if hasErrorCallback then WithPhase(p, p.server, h, InErrorCallback)
      else WithPhase(p, LeaveFetch(p.server), h, AfterFetch(false))
    case ErrorCallbackSettles(h, outcome) =>
      WithPhase(p, LeaveFetch(p.server), h, AfterFetch(outcome.Returns? && outcome.isUpgrade))
    case Continue(h, callbacks) =>
      var handler := p.handlers[h];
      if handler.phase.isUpgrade && !handler.request.Http? then
        var (server, phase) := SocketEvent(p.server, handler.request, callbacks);
        WithPhase(p, server, h, if phase == Finished(Value) then Formatting else phase)
      else WithPhase(p, p.server, h, Formatting)
    case CallbackSettles(h, throws) =>
      var handler := p.handlers[h];
      var server := if handler.phase.Closing? then EndDisconnect(p.server, handler.phase.c) else p.server;
      WithPhase(p, server, h,
                if throws then Finished(Error)
                else if handler.entered then Formatting
                else Finished(Value))
    case FormatSettles(h, throws) => WithPhase(p, p.server, h, Finished(if throws then Error else Value))
    case UserUpgrades(connection) => p.(server := Upgrade(p.server, connection))
    case TimerFires => p.(main := Posting(TimeoutError), winners := p.winners + [Timer])
    case RaceEnds =>
      if p.handlers[p.main.handler].phase.settled.Value? then p.(main := Posting(Response), winners := p.winners + [HandlerValue])
      else p.(main := Posting(RequestError), winners := p.winners + [HandlerError])
    case SendPost => p.(main := AwaitingPost, posts := p.posts + [Post(p.requestId, p.main.kind)])
    case PostSettles(ok) => if ok then p.(main := Receiving, requestId := None) else p.(main := Exited)
    case Stop => p.(main := Exited)
  }

  // ---- Invariants of every step ---------------------------------------------------------------

  function CountInside(handlers: seq<Handler>): nat {
    if handlers == [] then 0
    else
      var n := |handlers| - 1;
      CountInside(handlers[..n]) + if InsideFetch(handlers[n]) then 1 else 0
  }

  function KindFor(w: Winner): PostKind {
    match w
    case Timer => TimeoutError
    case HandlerValue => Response
    case HandlerError => RequestError
  }

  /** What was posted answers what was received, one for one and in order. */
  ghost predicate PostsMatch(p: Process) {
    && |p.posts| <= |p.winners| <= |p.received|
    && (forall i | 0 <= i < |p.posts| :: p.posts[i] == Post(Some(p.received[i]), KindFor(p.winners[i])))
    && match p.main
       case Receiving => |p.posts| == |p.winners| == |p.received|
       case AwaitingPost => |p.posts| == |p.winners| == |p.received|
       case Racing(_) =>
         |p.posts| == |p.winners| == |p.received| - 1 && p.requestId == Some(p.received[|p.received| - 1])
       case Posting(kind) =>
         && |p.posts| == |p.received| - 1 && |p.winners| == |p.received|
         && p.requestId == Some(p.received[|p.received| - 1]) && kind == KindFor(p.winners[|p.winners| - 1])
       case Exited => |p.posts| + 1 >= |p.received|
  }

  ghost predicate RequestsCounted(p: Process) { p.server.pendingRequests == CountInside(p.handlers) }

  /** The socket counter is the number of open sockets, but for repeated upgrades and late closes. */
  ghost predicate SocketsCounted(p: Process) { Counted(p.server) }

  ghost predicate Inv(p: Process) { PostsMatch(p) && RequestsCounted(p) && SocketsCounted(p) }

  lemma {:induction false} CountUpdate(handlers: seq<Handler>, h: nat, handler: Handler)
    requires h < |handlers|
    ensures CountInside(handlers[h := handler]) + (if InsideFetch(handlers[h]) then 1 else 0) ==
            CountInside(handlers) + if InsideFetch(handler) then 1 else 0
  {
    var n := |handlers| - 1;
    if h < n {
      assert handlers[h := handler][..n] == handlers[..n][h := handler];
      CountUpdate(handlers[..n], h, handler);
    } else {
      assert handlers[h := handler][..n] == handlers[..n];
    }
  }

  lemma CountAppend(handlers: seq<Handler>, handler: Handler)
    ensures CountInside(handlers + [handler]) == CountInside(handlers) + if InsideFetch(handler) then 1 else 0
  {
    assert (handlers + [handler])[..|handlers|] == handlers;
  }

  lemma StepCountsRequests(p: Process, step: Step)
    requires Enabled(p, step) && RequestsCounted(p)
    ensures RequestsCounted(Next(p, step))
  {
    hide CountInside;
    var q := Next(p, step);
    match step
    case Receive(_, _, _, _, _) =>
      CountAppend(p.handlers, q.handlers[|p.handlers|]);
    case UserFetchSettles(h, _, _) => CountUpdate(p.handlers, h, q.handlers[h]);
    case ErrorCallbackSettles(h, _) => CountUpdate(p.handlers, h, q.handlers[h]);
    case Continue(h, _) => CountUpdate(p.handlers, h, q.handlers[h]);
    case CallbackSettles(h, _) => CountUpdate(p.handlers, h, q.handlers[h]);
    case FormatSettles(h, _) => CountUpdate(p.handlers, h, q.handlers[h]);
    case _ =>
  }

  lemma StepKeepsPosts(p: Process, step: Step)
    requires Enabled(p, step) && PostsMatch(p)
    ensures PostsMatch(Next(p, step))
  {
    hide StartHandler;
    if step.Receive? { StartKeeps(p.(requestId := Some(step.id), received := p.received + [step.id], main := Racing(|p.handlers|)), step); }
  }

  lemma StartKeeps(q: Process, step: Step)
    requires step.Receive?
    ensures var r := StartHandler(q, step.request, step.asHttp, step.malformed, step.callbacks);
            r == q.(server := r.server, handlers := r.handlers)
  {
  }

  ghost predicate Counted(s: Server) { s.pendingWebSockets == |s.webSockets| + s.repeated - s.late }

  lemma EndDisconnectCounts(s: Server, c: ConnectionId)
    requires Counted(s)
    ensures Counted(EndDisconnect(s, c))
  {
    if c in s.webSockets {
      assert |s.webSockets - {c}| == |s.webSockets| - 1;
    } else {
      assert s.webSockets - {c} == s.webSockets;
    }
  }

  lemma UpgradeCounts(s: Server, connection: Option<ConnectionId>)
    requires Counted(s)
    ensures Counted(Upgrade(s, connection))
  {
    if connection.Some? {
      if connection.value in s.webSockets {
        assert s.webSockets + {connection.value} == s.webSockets;
      } else {
        assert |s.webSockets + {connection.value}| == |s.webSockets| + 1;
      }
    }
  }

  lemma AcceptCounts(s: Server, request: Request, callbacks: Callbacks)
    requires !request.Http? && Counted(s)
    ensures Counted(SocketEvent(s, request, callbacks).0)
  {
    hide Counted;
    EndDisconnectCounts(s, request.c);
  }

  lemma StepCountsSockets(p: Process, step: Step)
    requires Enabled(p, step) && SocketsCounted(p)
    ensures SocketsCounted(Next(p, step))
  {
    hide SocketEvent, EndDisconnect, Upgrade;
    match step
    case Receive(_, request, _, _, callbacks) =>
      if !request.Http? { AcceptCounts(p.server, request, callbacks); }
    case Continue(h, callbacks) =>
      if !p.handlers[h].request.Http? { AcceptCounts(p.server, p.handlers[h].request, callbacks); }
    case CallbackSettles(h, _) =>
      if p.handlers[h].phase.Closing? { EndDisconnectCounts(p.server, p.handlers[h].phase.c); }
    case UserUpgrades(connection) => UpgradeCounts(p.server, connection);
    case _ =>
  }

  /** Every step of every interleaving keeps the books. */
  lemma StepKeeps(p: Process, step: Step)
    requires Enabled(p, step) && Inv(p)
    ensures Inv(Next(p, step))
  {
    hide PostsMatch, RequestsCounted, SocketsCounted;
    StepKeepsPosts(p, step);
    StepCountsRequests(p, step);
    StepCountsSockets(p, step);
  }

  // ---- Every run --------------------------------------------------------------------------------

  predicate ValidRun(p: Process, steps: seq<Step>)
    decreases |steps|
  {
    steps == [] || (Enabled(p, steps[0]) && ValidRun(Next(p, steps[0]), steps[1..]))
  }

  function Run(p: Process, steps: seq<Step>): Process
    requires ValidRun(p, steps)
    decreases |steps|
  {
    if steps == [] then p else Run(Next(p, steps[0]), steps[1..])
  }

  lemma {:induction false} RunKeeps(p: Process, steps: seq<Step>)
    requires ValidRun(p, steps) && Inv(p)
    ensures Inv(Run(p, steps))
    decreases |steps|
  {
    hide Inv;
    if steps != [] {
      StepKeeps(p, steps[0]);
      RunKeeps(Next(p, steps[0]), steps[1..]);
    }
  }

  lemma StartInv()
    ensures Inv(START)
  {
  }

  /** Over every interleaving: whenever the process waits for the next invocation, every earlier one
      has got exactly one post, under its own id, and TimeoutError exactly if the timer won. */
  lemma OnePostEach(steps: seq<Step>)
    requires ValidRun(START, steps)
    ensures var p := Run(START, steps);
            && Inv(p)
            && (p.main.Receiving? ==> |p.posts| == |p.received|)
            && forall i | 0 <= i < |p.posts| ::
                 p.posts[i].requestId == Some(p.received[i]) && (p.posts[i].kind == TimeoutError <==> p.winners[i] == Timer)
  {
    StartInv();
    RunKeeps(START, steps);
  }

  // ---- When the socket counter is exact -------------------------------------------------------

  /** A disconnect of the connection that has not ended yet, or not come to its close. */
  predicate MayClose(h: Handler, c: ConnectionId) {
    h.request == Disconnect(c) && (InsideFetch(h) || h.phase.AfterFetch? || h.phase.Closing?)
  }

  /** No open connection is upgraded again, and no disconnect begins while one of the same
      connection is still in progress. */
  predicate Careful(p: Process, step: Step) {
    && (step.UserUpgrades? && step.connection.Some? ==> step.connection.value !in p.server.webSockets)
    && (step.Receive? && step.request.Disconnect? ==>
          forall h | 0 <= h < |p.handlers| :: !MayClose(p.handlers[h], step.request.c))
  }

  predicate CarefulRun(p: Process, steps: seq<Step>)
    requires ValidRun(p, steps)
    decreases |steps|
  {
    steps == [] || (Careful(p, steps[0]) && CarefulRun(Next(p, steps[0]), steps[1..]))
  }

  /** A connection that is being closed is still open, and only one handler may close it. */
  ghost predicate ClosingOpen(p: Process) {
    && p.server.repeated == p.server.late == 0
    && (forall h | 0 <= h < |p.handlers| && p.handlers[h].phase.Closing? ::
          p.handlers[h].request == Disconnect(p.handlers[h].phase.c) && p.handlers[h].phase.c in p.server.webSockets)
    && (forall g, h, c | 0 <= g < h < |p.handlers| && MayClose(p.handlers[g], c) :: !MayClose(p.handlers[h], c))
  }

  /** A handler that may close its connection only if it might before goes on, and no socket is lost. */
  lemma CarefulPhase(p: Process, server: Server, h: nat, phase: Phase)
    requires h < |p.handlers| && ClosingOpen(p)
    requires server.webSockets >= p.server.webSockets && server.repeated == server.late == 0
    requires phase.Closing? ==> p.handlers[h].request == Disconnect(phase.c) && phase.c in server.webSockets
    requires forall c | MayClose(p.handlers[h].(phase := phase), c) :: MayClose(p.handlers[h], c)
    ensures ClosingOpen(WithPhase(p, server, h, phase))
  {
    var q := WithPhase(p, server, h, phase);
    forall f, g, c | 0 <= f < g < |q.handlers| && MayClose(q.handlers[f], c) ensures !MayClose(q.handlers[g], c) {
      assert MayClose(p.handlers[f], c);
    }
  }

  /** The one handler that may close the connection does so. */
  lemma CarefulClose(p: Process, h: nat, c: ConnectionId, phase: Phase)
    requires h < |p.handlers| && ClosingOpen(p) && MayClose(p.handlers[h], c) && c in p.server.webSockets
    requires phase.Finished? || phase.Formatting?
    ensures ClosingOpen(WithPhase(p, EndDisconnect(p.server, c), h, phase))
  {
    var q := WithPhase(p, EndDisconnect(p.server, c), h, phase);
    forall g | 0 <= g < |q.handlers| && q.handlers[g].phase.Closing?
      ensures q.handlers[g].request == Disconnect(q.handlers[g].phase.c) && q.handlers[g].phase.c in q.server.webSockets
    {
      assert MayClose(p.handlers[g], p.handlers[g].phase.c);
      assert p.handlers[g].phase.c != c by {
        if g < h { assert MayClose(p.handlers[g], p.handlers[g].phase.c); }
      }
    }
    forall f, g, d | 0 <= f < g < |q.handlers| && MayClose(q.handlers[f], d) ensures !MayClose(q.handlers[g], d) {
      assert MayClose(p.handlers[f], d);
    }
  }

  lemma CarefulReceive(p: Process, step: Step)
    requires step.Receive? && Enabled(p, step) && Careful(p, step) && ClosingOpen(p)
    ensures ClosingOpen(Next(p, step))
  {
    var q := Next(p, step);
    var n := |p.handlers|;
    forall g, h, c | 0 <= g < h < |q.handlers| && MayClose(q.handlers[g], c) ensures !MayClose(q.handlers[h], c) {
      assert MayClose(p.handlers[g], c);
    }
    forall h | 0 <= h < n && p.handlers[h].phase.Closing?
      ensures p.handlers[h].phase.c in q.server.webSockets
    {
      assert MayClose(p.handlers[h], p.handlers[h].phase.c);
    }
  }

  lemma CarefulContinue(p: Process, step: Step)
    requires step.Continue? && Enabled(p, step) && ClosingOpen(p)
    ensures ClosingOpen(Next(p, step))
  {
    var q, h := Next(p, step), step.h;
    var handler := p.handlers[h];
    if handler.request.Disconnect? && handler.phase.isUpgrade && handler.request.c in p.server.webSockets
       && step.callbacks.WithoutCallback? {
      CarefulClose(p, h, handler.request.c, Formatting);
    } else {
      CarefulPhase(p, q.server, h, q.handlers[h].phase);
    }
  }

  lemma CarefulStep(p: Process, step: Step)
    requires Enabled(p, step) && Careful(p, step) && ClosingOpen(p)
    ensures ClosingOpen(Next(p, step))
  {
    var q := Next(p, step);
    match step
    case Receive(_, _, _, _, _) => CarefulReceive(p, step);
    case UserFetchSettles(h, _, _) => CarefulPhase(p, q.server, h, q.handlers[h].phase);
    case ErrorCallbackSettles(h, _) => CarefulPhase(p, q.server, h, q.handlers[h].phase);
    case Continue(_, _) => CarefulContinue(p, step);
    case CallbackSettles(h, _) =>
      if p.handlers[h].phase.Closing? {
        CarefulClose(p, h, p.handlers[h].phase.c, q.handlers[h].phase);
      } else {
        CarefulPhase(p, q.server, h, q.handlers[h].phase);
      }
    case FormatSettles(h, _) => CarefulPhase(p, q.server, h, q.handlers[h].phase);
    case _ =>
  }

  lemma {:induction false} CarefulRunExact(p: Process, steps: seq<Step>)
    requires ValidRun(p, steps) && CarefulRun(p, steps) && ClosingOpen(p)
    ensures ClosingOpen(Run(p, steps))
    decreases |steps|
  {
    hide ClosingOpen, Careful;
    if steps != [] {
      CarefulStep(p, steps[0]);
      CarefulRunExact(Next(p, steps[0]), steps[1..]);
    }
  }

  /** The two counters over every run: pendingRequests is the number of handlers inside `fetch`;
      pendingWebSockets is the number of open sockets exactly if there were as many repeated upgrades
      as late disconnects, so always if the run was careful. */
  lemma CountersExact(steps: seq<Step>)
    requires ValidRun(START, steps)
    ensures var s := Run(START, steps).server;
            && s.pendingRequests == CountInside(Run(START, steps).handlers)
            && (s.pendingWebSockets == |s.webSockets| <==> s.repeated == s.late)
            && (CarefulRun(START, steps) ==> s.pendingWebSockets == |s.webSockets|)
  {
    StartInv();
    RunKeeps(START, steps);
    if CarefulRun(START, steps) { CarefulRunExact(START, steps); }
  }

  lemma {:induction false} RunAppend(p: Process, steps: seq<Step>, step: Step)
    requires ValidRun(p, steps) && Enabled(Run(p, steps), step)
    ensures ValidRun(p, steps + [step]) && Run(p, steps + [step]) == Next(Run(p, steps), step)
    decreases |steps|
  {
    var more := steps + [step];
    if steps == [] {
      assert more[1..] == [];
    } else {
      assert more[1..] == steps[1..] + [step];
      RunAppend(Next(p, steps[0]), steps[1..], step);
    }
  }

  /** A CONNECT request whose fetch upgrades it. */
  lemma Upgraded(c: ConnectionId) returns (steps: seq<Step>)
    ensures ValidRun(START, steps)
    ensures Run(START, steps) == Process(
              Server(1, 1, {c}, true, 0, 0), [Handler(Connect(c), true, InFetch)], Racing(0), Some(1), [1], [], [])
  {
    var receive := Receive(1, Connect(c), false, false, WithCallback);
    RunAppend(START, [], receive);
    var p := Next(START, receive);
    assert p.handlers[0] == Handler(Connect(c), true, InFetch);
    RunAppend(START, [] + [receive], UserUpgrades(Some(c)));
    steps := [] + [receive] + [UserUpgrades(Some(c))];
  }

  /** Upgrading an open connection again throws the counter off: one socket is counted twice. */
  lemma RepeatedUpgradeMiscounts(c: ConnectionId)
    ensures exists steps :: ValidRun(START, steps)
              && Run(START, steps).server.pendingWebSockets == 2 && Run(START, steps).server.webSockets == {c}
  {
    var steps := Upgraded(c);
    var p := Run(START, steps);
    assert p.handlers[0].entered && p.handlers[0].request == Connect(c);
    RunAppend(START, steps, UserUpgrades(Some(c)));
    assert {c} + {c} == {c};
  }

  /** The timer wins, and the process waits for the next invocation. */
  lemma TimedOut(steps: seq<Step>) returns (more: seq<Step>)
    requires ValidRun(START, steps) && Run(START, steps).main.Racing?
    ensures ValidRun(START, more)
    ensures var p, q := Run(START, steps), Run(START, more);
            q.server == p.server && q.handlers == p.handlers && q.main == Receiving
  {
    RunAppend(START, steps, TimerFires);
    RunAppend(START, steps + [TimerFires], SendPost);
    RunAppend(START, steps + [TimerFires] + [SendPost], PostSettles(true));
    more := steps + [TimerFires] + [SendPost] + [PostSettles(true)];
  }

  /** Two disconnects of one connection whose close callbacks overlap, as the first invocation timed
      out: one socket is counted off twice. */
  lemma OverlappingDisconnectsMiscount(c: ConnectionId)
    ensures exists steps :: ValidRun(START, steps)
              && Run(START, steps).server.pendingWebSockets == -1 && Run(START, steps).server.webSockets == {}
  {
    var steps := Upgraded(c);
    steps := TimedOut(steps);
    var first := Receive(2, Disconnect(c), false, false, WithCallback);
    RunAppend(START, steps, first);
    steps := TimedOut(steps + [first]);
    var second := Receive(3, Disconnect(c), false, false, WithCallback);
    RunAppend(START, steps, second);
    steps := steps + [second];
    RunAppend(START, steps, CallbackSettles(1, false));
    steps := steps + [CallbackSettles(1, false)];
    RunAppend(START, steps, CallbackSettles(2, false));
    assert {c} - {c} - {c} == {};
  }

  // ---- The shared upgrade slot ----------------------------------------------------------------

  /** A handler leaves `fetch`, and so clears the slot. */
  predicate LeavesFetch(p: Process, step: Step)
    requires Enabled(p, step)
  {
    (step.UserFetchSettles? || step.ErrorCallbackSettles?) && Next(p, step).handlers[step.h].phase.AfterFetch?
  }

  lemma SlotStep(p: Process, step: Step)
    requires Enabled(p, step)
    ensures Next(p, step).server.upgrade ==
            (step.UserUpgrades? || (p.server.upgrade && !LeavesFetch(p, step)))
  {
  }

  lemma {:induction false} PrefixRuns(p: Process, steps: seq<Step>, k: nat)
    requires ValidRun(p, steps) && k <= |steps|
    ensures ValidRun(p, steps[..k])
    ensures k < |steps| ==> Enabled(Run(p, steps[..k]), steps[k])
    decreases |steps|
  {
    if k > 0 {
      assert steps[..k][1..] == steps[1..][..k - 1];
      PrefixRuns(Next(p, steps[0]), steps[1..], k - 1);
    }
  }

  /** Step k upgraded, and no handler has left `fetch` since. */
  ghost predicate UpgradedSince(steps: seq<Step>, k: nat)
    requires ValidRun(START, steps)
  {
    && k < |steps| && steps[k].UserUpgrades?
    && forall l | k < l < |steps| :: !LeavesAt(steps, l)
  }

  ghost predicate LeavesAt(steps: seq<Step>, l: nat)
    requires ValidRun(START, steps) && l < |steps|
  {
    PrefixRuns(START, steps, l);
    LeavesFetch(Run(START, steps[..l]), steps[l])
  }

  lemma {:induction false} SlotExactly(steps: seq<Step>)
    requires ValidRun(START, steps)
    ensures Run(START, steps).server.upgrade <==> exists k: nat :: UpgradedSince(steps, k)
    decreases |steps|
  {
    if steps == [] {
      assert forall k: nat :: !UpgradedSince(steps, k);
    } else {
      hide Run, ValidRun, Enabled, Next, LeavesFetch;
      var n := |steps| - 1;
      var front := steps[..n];
      PrefixRuns(START, steps, n);
      SlotExactly(front);
      var p := Run(START, front);
      SlotStep(p, steps[n]);
      assert front + [steps[n]] == steps;
      RunAppend(START, front, steps[n]);
      forall l: nat | l < n ensures LeavesAt(steps, l) == LeavesAt(front, l) {
        assert front[..l] == steps[..l];
      }
      assert LeavesAt(steps, n) == LeavesFetch(p, steps[n]);
      if Run(START, steps).server.upgrade {
        if steps[n].UserUpgrades? {
          assert UpgradedSince(steps, n);
        } else {
          var k: nat :| UpgradedSince(front, k);
          assert UpgradedSince(steps, k);
        }
      }
      forall k: nat | UpgradedSince(steps, k) ensures Run(START, steps).server.upgrade {
        if k < n {
          assert !LeavesAt(steps, n);
          assert UpgradedSince(front, k);
        }
      }
    }
  }

  /** A fetch that returns undefined yields status 101 exactly if, whoever it was, someone upgraded a
      request and no handler has left `fetch` since; else the error callback or status 500 answers. */
  lemma UpgradedExactly(steps: seq<Step>, h: nat, hasErrorCallback: bool)
    requires ValidRun(START, steps) && AtPhase(Run(START, steps), h, InFetch) && !Run(START, steps).main.Exited?
    ensures var settle := UserFetchSettles(h, ReturnsUndefined, hasErrorCallback);
            && ValidRun(START, steps + [settle])
            && (AtPhase(Run(START, steps + [settle]), h, AfterFetch(true)) <==> exists k: nat :: UpgradedSince(steps, k))
  {
    SlotExactly(steps);
    RunAppend(START, steps, UserFetchSettles(h, ReturnsUndefined, hasErrorCallback));
    hide Run, ValidRun;
  }

  /** With which status `fetch` is left: 101 if the user's fetch or error callback returned it, or by
      the upgrade slot; the error callback is asked if there is one and the user's fetch gave no
      response. */
  lemma FetchLeaves(p: Process, step: Step)
    requires Enabled(p, step) && (step.UserFetchSettles? || step.ErrorCallbackSettles?)
    ensures var phase := Next(p, step).handlers[step.h].phase;
            var by101 := step.outcome == Returns(true)
                         || (step.UserFetchSettles? && step.outcome == ReturnsUndefined && p.server.upgrade);
            && (phase == AfterFetch(true) <==> by101)
            && (phase == InErrorCallback <==>
                step.UserFetchSettles? && step.hasErrorCallback && step.outcome != Returns(false) && !by101)
            && (phase == AfterFetch(false) <==> phase != InErrorCallback && !by101)
  {
  }

  /** A request that timed out inside `fetch` leaves it after a later CONNECT request was upgraded:
      that one returns undefined and gets status 500, while its socket stays. */
  lemma UpgradeLost(c: ConnectionId)
    ensures exists steps :: ValidRun(START, steps)
              && Run(START, steps).handlers == [Handler(Http, true, AfterFetch(false)), Handler(Connect(c), true, AfterFetch(false))]
              && Run(START, steps).server.webSockets == {c}
  {
    var receive := Receive(1, Http, false, false, WithCallback);
    RunAppend(START, [], receive);
    var steps := TimedOut([] + [receive]);
    var connect := Receive(2, Connect(c), false, false, WithCallback);
    RunAppend(START, steps, connect);
    steps := steps + [connect];
    var p := Run(START, steps);
    assert p.handlers == [Handler(Http, true, InFetch), Handler(Connect(c), true, InFetch)];
    assert p.handlers[1].entered && p.handlers[1].request == Connect(c);
    RunAppend(START, steps, UserUpgrades(Some(c)));
    steps := steps + [UserUpgrades(Some(c))];
    RunAppend(START, steps, UserFetchSettles(0, Returns(false), false));
    steps := steps + [UserFetchSettles(0, Returns(false), false)];
    RunAppend(START, steps, UserFetchSettles(1, ReturnsUndefined, false));
    steps := steps + [UserFetchSettles(1, ReturnsUndefined, false)];
    assert {} + {c} == {c};
  }

  // ---- What the posts say ----------------------------------------------------------------------

  /** A response answers a handler that returned, a request error one that threw. */
  predicate Answers(kind: PostKind, h: Handler) {
    && (kind == Response ==> h.phase == Finished(Value))
    && (kind == RequestError ==> h.phase == Finished(Error))
  }

  /** Handler i is that of the i-th invocation, and the i-th post answers it. */
  ghost predicate PostsAnswer(p: Process) {
    && |p.handlers| == |p.received| && |p.posts| <= |p.handlers|
    && (forall i | 0 <= i < |p.posts| :: Answers(p.posts[i].kind, p.handlers[i]))
    && (p.main.Racing? ==> p.main.handler == |p.handlers| - 1)
    && (p.main.Posting? ==> |p.posts| == |p.handlers| - 1 && Answers(p.main.kind, p.handlers[|p.posts|]))
    && (p.main.Racing? ==> |p.posts| == |p.handlers| - 1)
    && (p.main.Receiving? || p.main.AwaitingPost? ==> |p.posts| == |p.handlers|)
  }

  /** What a step does to the handlers: it starts one, or moves one that has not finished. */
  lemma HandlersStep(p: Process, step: Step)
    requires Enabled(p, step)
    ensures var q := Next(p, step);
            && q.received == p.received + (if step.Receive? then [step.id] else [])
            && |q.handlers| == |p.handlers| + (if step.Receive? then 1 else 0)
            && forall i | 0 <= i < |p.handlers| && p.handlers[i].phase.Finished? :: q.handlers[i] == p.handlers[i]
  {
  }

  lemma StepAnswers(p: Process, step: Step)
    requires Enabled(p, step) && PostsAnswer(p)
    ensures PostsAnswer(Next(p, step))
  {
    HandlersStep(p, step);
    var q := Next(p, step);
    forall i | 0 <= i < |q.posts| ensures Answers(q.posts[i].kind, q.handlers[i]) {
    }
  }

  /** The invocations of a run, in order. */
  function Receives(steps: seq<Step>): (r: seq<Step>)
    ensures forall i | 0 <= i < |r| :: r[i].Receive?
  {
    if steps == [] then []
    else
      var n := |steps| - 1;
      Receives(steps[..n]) + if steps[n].Receive? then [steps[n]] else []
  }

  /** Something about invocation i threw: its event was malformed, a socket callback threw, or
      reading the response did. */
  predicate Erred(steps: seq<Step>, i: nat) {
    && i < |Receives(steps)|
    && (Receives(steps)[i].malformed || CallbackSettles(i, true) in steps || FormatSettles(i, true) in steps)
  }

  /** The timer fired while invocation i was the last one received. */
  predicate TimerFired(steps: seq<Step>, i: nat) {
    exists k | 0 <= k < |steps| :: steps[k] == TimerFires && |Receives(steps[..k])| == i + 1
  }

  ghost predicate HandlerTold(p: Process, steps: seq<Step>, i: nat)
    requires i < |p.handlers| == |p.received| == |Receives(steps)|
  {
    var receive := Receives(steps)[i];
    && p.received[i] == receive.id && p.handlers[i].request == receive.request
    && (p.handlers[i].entered <==> !receive.malformed && IsRequest(receive.request, receive.asHttp))
    && (Erred(steps, i) <==> p.handlers[i].phase == Finished(Error))
  }

  /** The process is what the steps up to now tell. */
  ghost predicate Told(p: Process, steps: seq<Step>) {
    && |p.handlers| == |p.received| == |Receives(steps)|
    && (forall i | 0 <= i < |p.handlers| :: HandlerTold(p, steps, i))
    && (forall i: nat | TimerFired(steps, i) :: i < |p.winners| && p.winners[i] == Timer)
    && (forall i | 0 <= i < |p.winners| && p.winners[i] == Timer :: TimerFired(steps, i))
  }

  lemma ReceivesSnoc(steps: seq<Step>, step: Step)
    ensures Receives(steps + [step]) == Receives(steps) + if step.Receive? then [step] else []
  {
    assert (steps + [step])[..|steps|] == steps;
  }

  lemma FiredSnoc(steps: seq<Step>, step: Step, i: nat)
    ensures TimerFired(steps + [step], i) <==> TimerFired(steps, i) || (step == TimerFires && |Receives(steps)| == i + 1)
  {
    var more := steps + [step];
    assert more[..|steps|] == steps;
    assert forall k | 0 <= k < |steps| :: more[k] == steps[k] && more[..k] == steps[..k];
    if step == TimerFires && |Receives(steps)| == i + 1 { assert more[|steps|] == TimerFires; }
  }

  lemma {:induction false} NotYet(p: Process, steps: seq<Step>, i: nat)
    requires ValidRun(START, steps) && p == Run(START, steps) && i >= |p.handlers|
    ensures CallbackSettles(i, true) !in steps && FormatSettles(i, true) !in steps
    decreases |steps|
  {
    if steps != [] {
      var n := |steps| - 1;
      PrefixRuns(START, steps, n);
      var q := Run(START, steps[..n]);
      assert steps == steps[..n] + [steps[n]];
      RunAppend(START, steps[..n], steps[n]);
      HandlersStep(q, steps[n]);
      hide Run, ValidRun, Next;
      NotYet(q, steps[..n], i);
    }
  }

  /** A step makes a handler end with an error exactly if something throws in it. */
  lemma PhaseStep(p: Process, step: Step, i: nat)
    requires Enabled(p, step) && i < |p.handlers|
    ensures var q := Next(p, step);
            && i < |q.handlers| && q.handlers[i].request == p.handlers[i].request && q.handlers[i].entered == p.handlers[i].entered
            && (q.handlers[i].phase == Finished(Error) <==>
                p.handlers[i].phase == Finished(Error) || step == CallbackSettles(i, true) || step == FormatSettles(i, true))
  {
    hide SocketEvent, LeaveFetch, EndDisconnect, Upgrade, StartHandler;
    if step.Receive? { StartKeepsHandlers(p.(requestId := Some(step.id), received := p.received + [step.id], main := Racing(|p.handlers|)), step, i); }
    if step.Continue? && !p.handlers[step.h].request.Http? {
      EventReturns(p.server, p.handlers[step.h].request, step.callbacks);
    }
  }

  lemma StartKeepsHandlers(q: Process, step: Step, i: nat)
    requires step.Receive? && i < |q.handlers|
    ensures var r := StartHandler(q, step.request, step.asHttp, step.malformed, step.callbacks);
            i < |r.handlers| && r.handlers[i] == q.handlers[i]
  {
    hide SocketEvent, EnterFetch;
  }

  lemma StartTold(p: Process, step: Step)
    requires step.Receive? && Enabled(p, step)
    ensures var handlers := Next(p, step).handlers;
            && |handlers| == |p.handlers| + 1
            && var h := handlers[|p.handlers|];
               && h.request == step.request && (h.entered <==> !step.malformed && IsRequest(step.request, step.asHttp))
               && (h.phase == Finished(Error) <==> step.malformed)
  {
    hide SocketEvent, EnterFetch;
    if !step.malformed && !IsRequest(step.request, step.asHttp) {
      EventReturns(p.server, step.request, step.callbacks);
    }
  }

  lemma ErredSnoc(steps: seq<Step>, step: Step, i: nat)
    ensures i < |Receives(steps)| ==>
              (Erred(steps + [step], i) <==> Erred(steps, i) || step == CallbackSettles(i, true) || step == FormatSettles(i, true))
    ensures i == |Receives(steps)| && step.Receive? && CallbackSettles(i, true) !in steps && FormatSettles(i, true) !in steps ==>
              (Erred(steps + [step], i) <==> step.malformed)
  {
    ReceivesSnoc(steps, step);
    var more := steps + [step];
    assert forall x :: x in more <==> x in steps || x == step;
    hide Receives;
  }

  lemma HandlerStep(p: Process, steps: seq<Step>, step: Step, i: nat)
    requires Enabled(p, step) && |p.handlers| == |p.received| == |Receives(steps)|
    requires if i < |p.handlers| then HandlerTold(p, steps, i)
             else CallbackSettles(i, true) !in steps && FormatSettles(i, true) !in steps
    requires |Next(p, step).handlers| == |Next(p, step).received| == |Receives(steps + [step])| && i < |Next(p, step).handlers|
    ensures HandlerTold(Next(p, step), steps + [step], i)
  {
    HandlersStep(p, step);
    ReceivesSnoc(steps, step);
    ErredSnoc(steps, step, i);
    if i < |p.handlers| { PhaseStep(p, step, i); } else { StartTold(p, step); }
    hide Next, Enabled, Erred, Receives, IsRequest;
  }

  lemma EventReturns(s: Server, request: Request, callbacks: Callbacks)
    requires !request.Http?
    ensures SocketEvent(s, request, callbacks).1 != Finished(Error)
  {
  }

  lemma HandlersTold(p: Process, steps: seq<Step>, step: Step)
    requires Enabled(p, step) && Told(p, steps) && ValidRun(START, steps) && p == Run(START, steps)
    ensures var q := Next(p, step);
            && |q.handlers| == |q.received| == |Receives(steps + [step])|
            && forall i | 0 <= i < |q.handlers| :: HandlerTold(q, steps + [step], i)
  {
    HandlersStep(p, step);
    ReceivesSnoc(steps, step);
    hide Run, ValidRun, Enabled, Next, HandlerTold, TimerFired, Receives;
    var q := Next(p, step);
    forall i | 0 <= i < |q.handlers| ensures HandlerTold(q, steps + [step], i) {
      if i >= |p.handlers| { NotYet(p, steps, i); }
      HandlerStep(p, steps, step, i);
    }
  }

  lemma TimersTold(p: Process, steps: seq<Step>, step: Step, i: nat)
    requires Enabled(p, step) && Told(p, steps) && PostsMatch(p)
    ensures var q := Next(p, step);
            TimerFired(steps + [step], i) <==> i < |q.winners| && q.winners[i] == Timer
  {
    FiredSnoc(steps, step, i);
    WinnersStep(p, step);
    hide Next, Enabled, HandlerTold, TimerFired, PostsMatch, Receives;
    assert TimerFired(steps, i) <==> i < |p.winners| && p.winners[i] == Timer;
  }

  lemma MakeTold(p: Process, steps: seq<Step>)
    requires |p.handlers| == |p.received| == |Receives(steps)| && forall i | 0 <= i < |p.handlers| :: HandlerTold(p, steps, i)
    requires forall i: nat :: TimerFired(steps, i) <==> i < |p.winners| && p.winners[i] == Timer
    ensures Told(p, steps)
  {
    hide HandlerTold, TimerFired, Receives;
  }

  lemma NothingTold()
    ensures ValidRun(START, []) && Told(Run(START, []), []) && PostsAnswer(Run(START, []))
  {
  }

  /** Over every run: the handlers are those of the invocations in order, and how each one settled
      and who won its race is told by the steps. */
  lemma {:induction false} RunTold(steps: seq<Step>)
    requires ValidRun(START, steps)
    ensures Told(Run(START, steps), steps) && PostsAnswer(Run(START, steps))
    decreases |steps|
  {
    hide *;
    if steps == [] {
      NothingTold();
      return;
    }
    var n := |steps| - 1;
    var front, step := steps[..n], steps[n];
    PrefixRuns(START, steps, n);
    RunTold(front);
    OnePostEach(front);
    assert steps == front + [step];
    RunAppend(START, front, step);
    var p := Run(START, front);
    StepAnswers(p, step);
    HandlersTold(p, front, step);
    InvPosts(p);
    forall i: nat ensures TimerFired(steps, i) <==> i < |Next(p, step).winners| && Next(p, step).winners[i] == Timer {
      TimersTold(p, front, step, i);
    }
    MakeTold(Next(p, step), steps);
  }

  lemma InvPosts(p: Process)
    requires Inv(p)
    ensures PostsMatch(p)
  {
  }

  lemma WinnersStep(p: Process, step: Step)
    requires Enabled(p, step) && PostsMatch(p)
    ensures Next(p, step).winners == p.winners + if step == TimerFires then [Timer]
                                                 else if step == RaceEnds then [Next(p, step).winners[|p.winners|]] else []
    ensures step == RaceEnds ==> Next(p, step).winners[|p.winners|] != Timer
    ensures step == TimerFires ==> |p.received| == |p.winners| + 1
  {
  }

  /** The i-th post goes out under the id of the i-th invocation received: a timeout error exactly if
      the timer fired on it, a response if its handler returned, and a request error if it threw. */
  lemma PostsTold(steps: seq<Step>)
    requires ValidRun(START, steps)
    ensures var p, receives := Run(START, steps), Receives(steps);
            && |p.posts| <= |p.handlers| == |receives|
            && forall i | 0 <= i < |p.posts| ::
                 && p.posts[i].requestId == Some(receives[i].id) && p.handlers[i].request == receives[i].request
                 && (p.posts[i].kind == TimeoutError <==> TimerFired(steps, i))
                 && (p.posts[i].kind == Response ==> p.handlers[i].phase == Finished(Value) && !Erred(steps, i))
                 && (p.posts[i].kind == RequestError ==> p.handlers[i].phase == Finished(Error) && Erred(steps, i))
  {
    RunTold(steps);
    OnePostEach(steps);
    hide Run, ValidRun, TimerFired, Erred;
    var p := Run(START, steps);
    forall i | 0 <= i < |p.posts|
      ensures && p.posts[i].requestId == Some(Receives(steps)[i].id) && p.handlers[i].request == Receives(steps)[i].request
              && (p.posts[i].kind == TimeoutError <==> TimerFired(steps, i))
              && (p.posts[i].kind == Response ==> p.handlers[i].phase == Finished(Value) && !Erred(steps, i))
              && (p.posts[i].kind == RequestError ==> p.handlers[i].phase == Finished(Error) && Erred(steps, i))
    {
      assert HandlerTold(p, steps, i) && Answers(p.posts[i].kind, p.handlers[i]);
    }
  }

  // ---- Which sockets are open, and who calls back ---------------------------------------------

  /** The step ends a disconnect of c: its close callback has settled, or there is none. */
  predicate EndsDisconnect(p: Process, step: Step, c: ConnectionId)
    requires Enabled(p, step)
  {
    match step
    case CallbackSettles(h, _) => p.handlers[h].phase == Closing(c)
    case Receive(_, request, asHttp, malformed, callbacks) =>
      !malformed && !asHttp && request == Disconnect(c) && callbacks.WithoutCallback?
    case Continue(h, callbacks) =>
      p.handlers[h].phase.isUpgrade && p.handlers[h].request == Disconnect(c) && callbacks.WithoutCallback?
    case _ => false
  }

  /** A socket is open from its upgrade until a disconnect of its connection ends. */
  lemma SocketsStep(p: Process, step: Step, c: ConnectionId)
    requires Enabled(p, step)
    ensures c in Next(p, step).server.webSockets <==>
            step == UserUpgrades(Some(c)) || (c in p.server.webSockets && !EndsDisconnect(p, step, c))
  {
  }

  /** An event that is not malformed is given to `fetch` exactly if it is an HTTP event, or passes for
      one, or opens a connection; then it is one more pending request. */
  lemma FetchedExactly(p: Process, step: Step)
    requires Enabled(p, step) && step.Receive? && !step.malformed
    ensures var q, fetched := Next(p, step), step.asHttp || step.request.Http? || step.request.Connect?;
            && (q.handlers[|p.handlers|].phase == InFetch <==> fetched)
            && q.server.pendingRequests == p.server.pendingRequests + if fetched then 1 else 0
  {
  }

  /** A socket event that is not a request is given to the user's callback exactly if there is one and
      the socket is open; else it is answered at once. */
  lemma CallbackExactly(p: Process, step: Step)
    requires Enabled(p, step) && step.Receive? && !step.malformed && !step.asHttp
    requires step.request.Message? || step.request.Disconnect?
    ensures var phase := Next(p, step).handlers[|p.handlers|].phase;
            var given := step.request.c in p.server.webSockets && step.callbacks.WithCallback?;
            && (phase == InCallback <==> step.request.Message? && given)
            && (phase == Closing(step.request.c) <==> step.request.Disconnect? && given)
            && (phase == Finished(Value) <==> !given)
  {
  }

  // ---- The process on objects -----------------------------------------------------------------

  class LambdaServer {
    var pendingRequests: int
    var pendingWebSockets: int
    var webSockets: set<ConnectionId>
    var upgrade: bool
    ghost var repeated: nat
    ghost var late: nat

    ghost function View(): Server
      reads this
    {
      Server(pendingRequests, pendingWebSockets, webSockets, upgrade, repeated, late)
    }

    constructor ()
      ensures View() == NEW_SERVER
    {
      pendingRequests, pendingWebSockets, webSockets, upgrade := 0, 0, {}, false;
      repeated, late := 0, 0;
    }

    /** The entry of `fetch`. */
    method BeginFetch()
      modifies this
      ensures View() == EnterFetch(old(View()))
    {
      pendingRequests := pendingRequests + 1;
    }

    /** Its `finally`. */
    method EndFetch()
      modifies this
      ensures View() == LeaveFetch(old(View()))
    {
      pendingRequests := pendingRequests - 1;
      upgrade := false;
    }

    method UpgradeRequest(connection: Option<ConnectionId>)
      modifies this
      ensures View() == Upgrade(old(View()), connection)
    {
      upgrade := true;
      if connection.Some? {
        if connection.value in webSockets { repeated := repeated + 1; }
        webSockets := webSockets + {connection.value};
        pendingWebSockets := pendingWebSockets + 1;
      }
    }

    /** The `finally` of a disconnect. */
    method FinishDisconnect(c: ConnectionId)
      modifies this
      ensures View() == EndDisconnect(old(View()), c)
    {
      if c !in webSockets { late := late + 1; }
      webSockets := webSockets - {c};
      pendingWebSockets := pendingWebSockets - 1;
    }

    /** `#acceptWebSocket`, to its first await. */
    method AcceptWebSocket(request: Request, callbacks: Callbacks) returns (phase: Phase)
      requires !request.Http?
      modifies this
      ensures (View(), phase) == SocketEvent(old(View()), request, callbacks)
    {
      if request.c !in webSockets || callbacks.NoCallbacks? { return Finished(Value); }
      match request
      case Connect(_) =>
        phase := if callbacks.WithCallback? then InCallback else Finished(Value);
      case Message(_) =>
        phase := if callbacks.WithCallback? then InCallback else Finished(Value);
      case Disconnect(c) =>
        if callbacks.WithCallback? {
          phase := Closing(c);
        } else {
          FinishDisconnect(c);
          phase := Finished(Value);
        }
    }
  }

  /** The main loop with the handlers it started. */
  class Runtime {
    const server: LambdaServer
    var handlers: seq<Handler>
    var main: Main
    var requestId: Option<RequestId>
    ghost var received: seq<RequestId>
    ghost var winners: seq<Winner>
    var posts: seq<Post>

    ghost function View(): Process
      reads this, server
    {
      Process(server.View(), handlers, main, requestId, received, winners, posts)
    }

    constructor ()
      ensures View() == START && fresh(server)
    {
      server := new LambdaServer();
      handlers, main, requestId, received, winners, posts := [], Receiving, None, [], [], [];
    }

    method SetPhase(h: nat, phase: Phase)
      requires h < |handlers|
      modifies this`handlers
      ensures handlers == old(handlers)[h := old(handlers)[h].(phase := phase)]
    {
      handlers := handlers[h := handlers[h].(phase := phase)];
    }

    /** `receiveRequest` and the start of `accept`: the handler runs to its first await. */
    method Accept(id: RequestId, request: Request, asHttp: bool, malformed: bool, callbacks: Callbacks)
      requires Enabled(View(), Receive(id, request, asHttp, malformed, callbacks))
      modifies this, server
      ensures View() == Next(old(View()), Receive(id, request, asHttp, malformed, callbacks))
    {
      requestId := Some(id);
      received := received + [id];
      main := Racing(|handlers|);
      var entered, phase := false, Finished(Error);
      if !malformed {
        if IsRequest(request, asHttp) {
          server.BeginFetch();
          entered, phase := true, InFetch;
        } else {
          phase := server.AcceptWebSocket(request, callbacks);
        }
      }
      handlers := handlers + [Handler(request, entered, phase)];
    }

    /** The user's fetch settles, inside `fetch`. */
    method SettleFetch(h: nat, outcome: UserOutcome, hasErrorCallback: bool)
      requires Enabled(View(), UserFetchSettles(h, outcome, hasErrorCallback))
      modifies this, server
      ensures View() == Next(old(View()), UserFetchSettles(h, outcome, hasErrorCallback))
    {
      var isUpgrade := outcome.Returns? && outcome.isUpgrade;
      if outcome.ReturnsUndefined? && server.upgrade {
        isUpgrade := true;
      } else if !outcome.Returns? && hasErrorCallback {
        SetPhase(h, InErrorCallback);
        return;
      }
      server.EndFetch();
      SetPhase(h, AfterFetch(isUpgrade));
    }

    /** Behind `fetch` in `#acceptRequest`. */
    method ContinueRequest(h: nat, callbacks: Callbacks)
      requires Enabled(View(), Continue(h, callbacks))
      modifies this, server
      ensures View() == Next(old(View()), Continue(h, callbacks))
    {
      var handler := handlers[h];
      var phase := Formatting;
      if handler.phase.isUpgrade && !handler.request.Http? {
        phase := server.AcceptWebSocket(handler.request, callbacks);
        if phase == Finished(Value) { phase := Formatting; }
      }
      SetPhase(h, phase);
    }

    method SettleCallback(h: nat, throws: bool)
      requires Enabled(View(), CallbackSettles(h, throws))
      modifies this, server
      ensures View() == Next(old(View()), CallbackSettles(h, throws))
    {
      var handler := handlers[h];
      if handler.phase.Closing? { server.FinishDisconnect(handler.phase.c); }
      SetPhase(h, if throws then Finished(Error) else if handler.entered then Formatting else Finished(Value));
    }

    /** The race of `accept` is decided by a settled handler. */
    method EndRace()
      requires Enabled(View(), RaceEnds)
      modifies this
      ensures View() == Next(old(View()), RaceEnds)
    {
      if handlers[main.handler].phase.settled.Value? {
        main := Posting(Response);
        winners := winners + [HandlerValue];
      } else {
        main := Posting(RequestError);
        winners := winners + [HandlerError];
      }
    }

    /** Any step of the process, on the objects. */
    method Perform(step: Step)
      requires Enabled(View(), step) && Inv(View())
      modifies this, server
      ensures View() == Next(old(View()), step) && Inv(View())
    {
      StepKeeps(View(), step);
      hide Inv;
      match step
      case Receive(id, request, asHttp, malformed, callbacks) => Accept(id, request, asHttp, malformed, callbacks);
      case UserFetchSettles(h, outcome, hasErrorCallback) => SettleFetch(h, outcome, hasErrorCallback);
      case ErrorCallbackSettles(h, outcome) =>
        server.EndFetch();
        SetPhase(h, AfterFetch(outcome.Returns? && outcome.isUpgrade));
      case Continue(h, callbacks) => ContinueRequest(h, callbacks);
      case CallbackSettles(h, throws) => SettleCallback(h, throws);
      case FormatSettles(h, throws) => SetPhase(h, Finished(if throws then Error else Value));
      case UserUpgrades(connection) => server.UpgradeRequest(connection);
      case TimerFires =>
        main := Posting(TimeoutError);
        winners := winners + [Timer];
      case RaceEnds => EndRace();
      case SendPost =>
        posts := posts + [Post(requestId, main.kind)];
        main := AwaitingPost;
      case PostSettles(ok) =>
        if ok {
          main := Receiving;
          requestId := None;
        } else {
          main := Exited;
        }
      case Stop => main := Exited;
    }

    /** A whole run of the process from its start on: whenever it waits for the next invocation, each
        earlier one has exactly one post under its own id, a TimeoutError exactly if the timer fired on
        it, a response only if its handler returned and a RequestError only if it threw;
        pendingRequests is the number of handlers inside `fetch`, and after a careful run
        pendingWebSockets is the number of open sockets. */
    method Execute(steps: seq<Step>)
      requires View() == START && ValidRun(START, steps)
      modifies this, server
      ensures View() == Run(START, steps)
      ensures main.Receiving? ==> |posts| == |received| == |winners|
      ensures |posts| <= |received| && |posts| <= |winners|
      ensures |posts| <= |handlers| == |Receives(steps)|
      ensures forall i | 0 <= i < |posts| ::
                && posts[i].requestId == Some(Receives(steps)[i].id) && handlers[i].request == Receives(steps)[i].request
                && (posts[i].kind == TimeoutError <==> TimerFired(steps, i))
                && (posts[i].kind == Response ==> handlers[i].phase == Finished(Value) && !Erred(steps, i))
                && (posts[i].kind == RequestError ==> handlers[i].phase == Finished(Error) && Erred(steps, i))
      ensures server.pendingRequests == CountInside(handlers)
      ensures CarefulRun(START, steps) ==> server.pendingWebSockets == |server.webSockets|
    {
      StartInv();
      OnePostEach(steps);
      PostsTold(steps);
      CountersExact(steps);
      hide Inv, Enabled, Next, CarefulRun, TimerFired, Erred;
      var i := 0;
      while i < |steps|
        invariant 0 <= i <= |steps| && Inv(View())
        invariant ValidRun(View(), steps[i..]) && Run(View(), steps[i..]) == Run(START, steps)
      {
        assert steps[i..][0] == steps[i] && steps[i..][1..] == steps[i + 1..];
        Perform(steps[i]);
        i := i + 1;
      }
    }
  }
}
