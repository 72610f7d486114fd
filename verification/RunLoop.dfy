// The reload loop: which event traces it can emit, and which configuration each session runs.
module RunLoop {
  import opened Basics

  /** `body` stands for everything the loop hands on without looking at it. */
  datatype Config = Config(endpoints: nat, tcpPort: bool, body: nat)
  {
    predicate HasEndpoints() {
      endpoints > 0 || tcpPort
    }
  }

  datatype Load = Loaded(cfg: Config) | Invalid(reason: string)

  /** What the select of a session sees: a shutdown signal, a hangup (with what loading
      the configuration gives at that moment), or the end of every task. */
  datatype Signal = Shutdown | Hangup(load: Load) | TasksDone

  datatype Event =
    | ConfigLoaded(endpoints: nat)
    | ReloadAttempted
    | ReloadSucceeded
    | ReloadSkipped(reason: string)
    | ShutdownStarted

  // ---- Sessions ------------------------------------------------------------------------

  /** How a session ends: still open, without endpoints, for good, or for its successor. */
  datatype End = Open | NoEndpoints | Stopped | Replaced(next: Config)

  datatype Session = Session(cfg: Config, skips: seq<string>, end: End)

  function Skipped(skips: seq<string>): seq<Event> {
    if skips == [] then []
    else Skipped(skips[..|skips| - 1]) + [ReloadAttempted, ReloadSkipped(skips[|skips| - 1])]
  }

  function Closing(end: End): seq<Event> {
    match end
    case Open => []
    case NoEndpoints => []
    case Stopped => [ShutdownStarted]
    case Replaced(_) => [ReloadAttempted, ReloadSucceeded, ShutdownStarted]
  }

  /** ConfigLoaded, then skipped reloads, then at most one successful one, then at most
      one ShutdownStarted. */
  function Render(s: Session): seq<Event> {
    [ConfigLoaded(s.cfg.endpoints)] + Skipped(s.skips) + Closing(s.end)
  }

  function RenderAll(sessions: seq<Session>): seq<Event> {
    if sessions == [] then []
    else RenderAll(sessions[..|sessions| - 1]) + Render(sessions[|sessions| - 1])
  }

  /** A legal history: a successor iff the reload succeeded, and it runs exactly the
      configuration validated at that reload; a configuration without endpoints ends it. */
  ghost predicate Chain(sessions: seq<Session>) {
    && sessions != []
    && (forall i :: 0 <= i < |sessions| ==>
          (sessions[i].end == NoEndpoints <==> !sessions[i].cfg.HasEndpoints()))
    && (forall i :: 0 <= i < |sessions| && sessions[i].end == NoEndpoints ==> sessions[i].skips == [])
    && (forall i :: 0 <= i < |sessions| - 1 ==> sessions[i].end == Replaced(sessions[i + 1].cfg))
    && !sessions[|sessions| - 1].end.Replaced?
  }

  // ---- What the loop does --------------------------------------------------------------

  function Sessions(cfg: Config, signals: seq<Signal>): seq<Session>
    decreases |signals|, 1
  {
    if !cfg.HasEndpoints() then [Session(cfg, [], NoEndpoints)] else Serve(cfg, [], signals)
  }

  function Serve(cfg: Config, skips: seq<string>, signals: seq<Signal>): seq<Session>
    decreases |signals|, 0
  {
    if signals == [] then [Session(cfg, skips, Open)]
    else match signals[0]
      case Shutdown => [Session(cfg, skips, Stopped)]
      case TasksDone => [Session(cfg, skips, Stopped)]
      case Hangup(Loaded(next)) => [Session(cfg, skips, Replaced(next))] + Sessions(next, signals[1..])
      case Hangup(Invalid(reason)) => Serve(cfg, skips + [reason], signals[1..])
  }

  lemma {:induction false} ServeIsChain(cfg: Config, skips: seq<string>, signals: seq<Signal>)
    requires cfg.HasEndpoints()
    ensures var ss := Serve(cfg, skips, signals);
      Chain(ss) && ss[0].cfg == cfg && |skips| <= |ss[0].skips| && ss[0].skips[..|skips|] == skips
    decreases |signals|, 0
  {
    if signals != [] && signals[0].Hangup? {
      match signals[0].load
      case Loaded(next) => SessionsAreChain(next, signals[1..]);
      case Invalid(reason) => ServeIsChain(cfg, skips + [reason], signals[1..]);
    }
  }

  /** Every run of the loop is a chain of sessions that starts from the initial config. */
  lemma {:induction false} SessionsAreChain(cfg: Config, signals: seq<Signal>)
    ensures Chain(Sessions(cfg, signals)) && Sessions(cfg, signals)[0].cfg == cfg
    decreases |signals|, 1
  {
    if cfg.HasEndpoints() {
      ServeIsChain(cfg, [], signals);
    }
  }

  /** The signals that produce a session after some of its skips. */
  function Script(skips: seq<string>, end: End): seq<Signal> {
    if skips != [] then [Hangup(Invalid(skips[0]))] + Script(skips[1..], end)
    else match end
      case Open => []
      case NoEndpoints => []
      case Stopped => [Shutdown]
      case Replaced(next) => [Hangup(Loaded(next))]
  }

  function ScriptAll(sessions: seq<Session>): seq<Signal> {
    if sessions == [] then [] else Script(sessions[0].skips, sessions[0].end) + ScriptAll(sessions[1..])
  }

  lemma {:induction false} ScriptServes(cfg: Config, done: seq<string>, skips: seq<string>, end: End, more: seq<Signal>)
    requires end != NoEndpoints
    ensures Serve(cfg, done, Script(skips, end) + more) ==
      match end
      case Open => if more == [] then [Session(cfg, done + skips, Open)] else Serve(cfg, done + skips, more)
      case Stopped => [Session(cfg, done + skips, Stopped)]
      case Replaced(next) => [Session(cfg, done + skips, Replaced(next))] + Sessions(next, more)
    decreases |skips|
  {
    if skips != [] {
      ScriptServes(cfg, done + [skips[0]], skips[1..], end, more);
      assert (Script(skips, end) + more)[1..] == Script(skips[1..], end) + more;
      assert done + [skips[0]] + skips[1..] == done + skips;
    } else {
      assert done + skips == done;
      assert end.Replaced? ==> (Script(skips, end) + more)[1..] == more;
      assert end == Open ==> Script(skips, end) + more == more;
    }
  }

  /** Conversely every chain is a run: the loop can emit exactly the chains. */
  lemma {:induction false} EveryChainRuns(sessions: seq<Session>)
    requires Chain(sessions)
    ensures Sessions(sessions[0].cfg, ScriptAll(sessions)) == sessions
    decreases |sessions|
  {
    var first, rest := sessions[0], sessions[1..];
    if first.end != NoEndpoints {
      ScriptServes(first.cfg, [], first.skips, first.end, ScriptAll(rest));
      assert [] + first.skips == first.skips;
    }
    if rest != [] {
      EveryChainRuns(rest);
      assert rest[0] == sessions[1];
    }
    assert sessions == [first] + rest;
  }

  // ---- The trace language --------------------------------------------------------------

  datatype TraceState = Start | Serving | Attempting | Accepted | Closed(reload: bool) | Rejected

  /** One event of the automaton: (ConfigLoaded (Attempted Skipped)* [Attempted Succeeded]
      ShutdownStarted)*, looping back only after a success. */
  function Next(s: TraceState, e: Event): TraceState {
    match (s, e)
    case (Start, ConfigLoaded(_)) => Serving
    case (Closed(true), ConfigLoaded(_)) => Serving
    case (Serving, ReloadAttempted) => Attempting
    case (Attempting, ReloadSkipped(_)) => Serving
    case (Attempting, ReloadSucceeded) => Accepted
    case (Accepted, ShutdownStarted) => Closed(true)
    case (Serving, ShutdownStarted) => Closed(false)
    case _ => Rejected
  }

  function Reads(s: TraceState, trace: seq<Event>): TraceState {
    if trace == [] then s else Next(Reads(s, trace[..|trace| - 1]), trace[|trace| - 1])
  }

  lemma {:induction false} ReadsConcat(s: TraceState, a: seq<Event>, b: seq<Event>)
    ensures Reads(s, a + b) == Reads(Reads(s, a), b)
    decreases |b|
  {
    if b == [] {
      assert a + b == a;
    } else {
      ReadsConcat(s, a, b[..|b| - 1]);
      assert (a + b)[..|a + b| - 1] == a + b[..|b| - 1];
    }
  }

  lemma {:induction false} ReadsSkips(skips: seq<string>)
    ensures Reads(Serving, Skipped(skips)) == Serving
  {
    if skips != [] {
      var last := [ReloadAttempted, ReloadSkipped(skips[|skips| - 1])];
      ReadsSkips(skips[..|skips| - 1]);
      ReadsConcat(Serving, Skipped(skips[..|skips| - 1]), last);
      assert last[..1] == [ReloadAttempted] && last[..1][..0] == [];
      assert Reads(Serving, last[..1]) == Attempting;
    }
  }

  function AfterSession(end: End): TraceState {
    match end
    case Open => Serving
    case NoEndpoints => Serving
    case Stopped => Closed(false)
    case Replaced(_) => Closed(true)
  }

  lemma {:induction false} ReadsSession(from: TraceState, s: Session)
    requires from == Start || from == Closed(true)
    ensures Reads(from, Render(s)) == AfterSession(s.end)
  {
    var head: seq<Event> := [ConfigLoaded(s.cfg.endpoints)];
    var closing := Closing(s.end);
    ReadsConcat(from, head + Skipped(s.skips), closing);
    ReadsConcat(from, head, Skipped(s.skips));
    assert head[..0] == [];
    assert Reads(from, head) == Serving;
    ReadsSkips(s.skips);
    if s.end.Replaced? {
      assert closing[..2][..1] == closing[..1] && closing[..1][..0] == [] && closing[..3] == closing;
      assert Reads(Serving, closing[..1]) == Attempting;
      assert Reads(Serving, closing[..2]) == Accepted;
    } else if s.end.Stopped? {
      assert closing[..0] == [];
    }
  }

  /** Every trace of the loop is in the language, and ends where its last session ends. */
  lemma {:induction false} ChainTrace(sessions: seq<Session>)
    requires Chain(sessions)
    ensures Reads(Start, RenderAll(sessions)) == AfterSession(sessions[|sessions| - 1].end)
  {
    ReadsUpTo(sessions, |sessions|);
    assert sessions[..|sessions|] == sessions;
  }

  lemma {:induction false} ReadsUpTo(sessions: seq<Session>, n: nat)
    requires Chain(sessions) && n <= |sessions|
    ensures Reads(Start, RenderAll(sessions[..n])) == if n == 0 then Start else AfterSession(sessions[n - 1].end)
  {
    if n > 0 {
      ReadsUpTo(sessions, n - 1);
      assert sessions[..n][..n - 1] == sessions[..n - 1];
      ReadsConcat(Start, RenderAll(sessions[..n - 1]), Render(sessions[n - 1]));
      ReadsSession(Reads(Start, RenderAll(sessions[..n - 1])), sessions[n - 1]);
    }
  }

  /** What a trace has emitted beyond the rendering of its open sessions. */
  function Unfinished(s: TraceState): seq<Event> {
    match s
    case Attempting => [ReloadAttempted]
    case Accepted => [ReloadAttempted, ReloadSucceeded]
    case Closed(true) => [ReloadAttempted, ReloadSucceeded, ShutdownStarted]
    case _ => []
  }

  /** A trace read back into sessions: a chain, open unless the trace ended it. */
  ghost predicate Explained(trace: seq<Event>, sessions: seq<Session>, s: TraceState) {
    if s == Start then trace == [] && sessions == []
    else
      && Chain(sessions)
      && sessions[|sessions| - 1].end == (if s == Closed(false) then Stopped else Open)
      && trace == RenderAll(sessions) + Unfinished(s)
  }

  function Front(sessions: seq<Session>): seq<Session>
    requires sessions != []
  {
    sessions[..|sessions| - 1]
  }

  function Last(sessions: seq<Session>): Session
    requires sessions != []
  {
    sessions[|sessions| - 1]
  }

  /** The last session of a chain may go on or end in another way. */
  lemma {:induction false} AmendLast(sessions: seq<Session>, s: Session)
    requires Chain(sessions) && Last(sessions).end == Open
    requires s.cfg == Last(sessions).cfg && (s.end == Open || s.end == Stopped)
    ensures Chain(Front(sessions) + [s])
  {
    var after := Front(sessions) + [s];
    assert forall i :: 0 <= i < |sessions| - 1 ==> after[i] == sessions[i];
  }

  lemma {:induction false} SucceedRenders(sessions: seq<Session>, next: Config, end: End)
    requires Chain(sessions) && Last(sessions).end == Open && (end == Open || end == NoEndpoints)
    ensures var done := Front(sessions) + [Last(sessions).(end := Replaced(next))];
      RenderAll(done + [Session(next, [], end)]) ==
      RenderAll(sessions) + Unfinished(Closed(true)) + [ConfigLoaded(next.endpoints)]
  {
    var last, t := Last(sessions), Session(next, [], end);
    var s := last.(end := Replaced(next));
    FinishSession(Front(sessions), s);
    FinishSession(Front(sessions) + [s], t);
    assert Render(t) == [ConfigLoaded(next.endpoints)];
    assert Render(s) == Render(last) + Unfinished(Closed(true));
    Associative(RenderAll(Front(sessions)), Render(last), Unfinished(Closed(true)));
  }

  /** An open session may be replaced, and a new one begun. */
  lemma {:induction false} Succeed(sessions: seq<Session>, next: Config)
    requires Chain(sessions) && Last(sessions).end == Open && next.HasEndpoints()
    ensures Chain(Front(sessions) + [Last(sessions).(end := Replaced(next))] + [Session(next, [], Open)])
  {
  }

  lemma {:induction false} ExplainLoaded(trace: seq<Event>, sessions: seq<Session>, n: nat)
    returns (explained: seq<Session>)
    requires Explained(trace, sessions, Closed(true))
    ensures Explained(trace + [ConfigLoaded(n)], explained, Serving)
  {
    var next := Config(n, true, 0);
    Succeed(sessions, next);
    SucceedRenders(sessions, next, Open);
    explained := Front(sessions) + [Last(sessions).(end := Replaced(next))] + [Session(next, [], Open)];
  }

  lemma {:induction false} SkipRenders(s: Session, reason: string)
    requires s.end == Open
    ensures Render(s.(skips := s.skips + [reason])) ==
            Render(s) + [ReloadAttempted] + [ReloadSkipped(reason)]
  {
    SkipOne(s.skips, reason);
  }

  lemma {:induction false} SkipOneMore(sessions: seq<Session>, reason: string)
    requires Chain(sessions) && Last(sessions).end == Open
    ensures var last := Last(sessions);
      var after := Front(sessions) + [last.(skips := last.skips + [reason])];
      Chain(after) && RenderAll(after) == RenderAll(sessions) + [ReloadAttempted, ReloadSkipped(reason)]
  {
    var last := Last(sessions);
    var s := last.(skips := last.skips + [reason]);
    AmendLast(sessions, s);
    FinishSession(Front(sessions), s);
    SkipRenders(last, reason);
    var more: seq<Event> := [ReloadAttempted, ReloadSkipped(reason)];
    assert Render(last) + [ReloadAttempted] + [ReloadSkipped(reason)] == Render(last) + more;
    Associative(RenderAll(Front(sessions)), Render(last), more);
  }

  lemma {:induction false} StopRenders(sessions: seq<Session>)
    requires Chain(sessions) && Last(sessions).end == Open
    ensures var after := Front(sessions) + [Last(sessions).(end := Stopped)];
      Chain(after) && RenderAll(after) == RenderAll(sessions) + [ShutdownStarted]
  {
    var last := Last(sessions);
    var s := last.(end := Stopped);
    AmendLast(sessions, s);
    FinishSession(Front(sessions), s);
    assert Render(s) == Render(last) + [ShutdownStarted];
    Associative(RenderAll(Front(sessions)), Render(last), [ShutdownStarted]);
  }

  lemma {:induction false} ExplainSkipped(trace: seq<Event>, sessions: seq<Session>, reason: string)
    returns (explained: seq<Session>)
    requires Explained(trace, sessions, Attempting)
    ensures Explained(trace + [ReloadSkipped(reason)], explained, Serving)
  {
    var last := Last(sessions);
    SkipOneMore(sessions, reason);
    Associative(RenderAll(sessions), [ReloadAttempted], [ReloadSkipped(reason)]);
    assert [ReloadAttempted] + [ReloadSkipped(reason)] == [ReloadAttempted, ReloadSkipped(reason)];
    explained := Front(sessions) + [last.(skips := last.skips + [reason])];
  }

  lemma {:induction false} ExplainStopped(trace: seq<Event>, sessions: seq<Session>)
    returns (explained: seq<Session>)
    requires Explained(trace, sessions, Serving)
    ensures Explained(trace + [ShutdownStarted], explained, Closed(false))
  {
    StopRenders(sessions);
    explained := Front(sessions) + [Last(sessions).(end := Stopped)];
  }

  /** Conversely every trace the automaton does not reject can be read back. */
  lemma {:induction false} ReadBack(trace: seq<Event>) returns (sessions: seq<Session>)
    requires Reads(Start, trace) != Rejected
    ensures Explained(trace, sessions, Reads(Start, trace))
  {
    if trace == [] {
      return [];
    }
    var front, e := trace[..|trace| - 1], trace[|trace| - 1];
    sessions := ReadBack(front);
    assert trace == front + [e];
    match (Reads(Start, front), e)
    case (Start, ConfigLoaded(n)) =>
      sessions := [Session(Config(n, true, 0), [], Open)];
      assert sessions[..0] == [];
    case (Closed(true), ConfigLoaded(n)) => sessions := ExplainLoaded(front, sessions, n);
    case (Attempting, ReloadSkipped(reason)) => sessions := ExplainSkipped(front, sessions, reason);
    case (Serving, ShutdownStarted) => sessions := ExplainStopped(front, sessions);
    case _ => ExplainMore(front, sessions, Reads(Start, front), e);
  }

  lemma {:induction false} ExplainMore(trace: seq<Event>, sessions: seq<Session>, s: TraceState, e: Event)
    requires Explained(trace, sessions, s) && Next(s, e) != Rejected
    requires (s == Serving || s == Attempting || s == Accepted) && Next(s, e) !in {Serving, Closed(false)}
    ensures Explained(trace + [e], sessions, Next(s, e))
  {
    assert Unfinished(Next(s, e)) == Unfinished(s) + [e];
    Associative(RenderAll(sessions), Unfinished(s), [e]);
  }

  ghost predicate Emitted(trace: seq<Event>) {
    exists initial: Config, signals: seq<Signal> :: RenderAll(Sessions(initial, signals)) == trace
  }

  /** The traces of the loop are exactly those that the automaton ends while serving or
      after a final shutdown. */
  lemma {:induction false} TraceLanguage(trace: seq<Event>)
    ensures Emitted(trace) <==> Reads(Start, trace) == Serving || Reads(Start, trace) == Closed(false)
  {
    if Emitted(trace) {
      var initial: Config, signals: seq<Signal> :| RenderAll(Sessions(initial, signals)) == trace;
      SessionsAreChain(initial, signals);
      ChainTrace(Sessions(initial, signals));
    }
    if Reads(Start, trace) == Serving || Reads(Start, trace) == Closed(false) {
      var sessions := ReadBack(trace);
      EveryChainRuns(sessions);
      assert RenderAll(sessions) == trace;
    }
  }

  // ---- Signal by signal ----------------------------------------------------------------

  /** The sessions after one more signal. */
  ghost predicate Continued(sessions: seq<Session>, x: Signal, after: seq<Session>)
    requires sessions != []
  {
    var last := Last(sessions);
    if last.end != Open then after == sessions
    else match x
      case Shutdown => after == Front(sessions) + [last.(end := Stopped)]
      case TasksDone => after == Front(sessions) + [last.(end := Stopped)]
      case Hangup(Invalid(reason)) => after == Front(sessions) + [last.(skips := last.skips + [reason])]
      case Hangup(Loaded(next)) =>
        after == Front(sessions) + [last.(end := Replaced(next))] +
          [Session(next, [], if next.endpoints > 0 || next.tcpPort then Open else NoEndpoints)]
  }

  lemma {:induction false} PrefixContinued(first: Session, sessions: seq<Session>, x: Signal, after: seq<Session>)
    requires sessions != [] && Continued(sessions, x, after)
    ensures Continued([first] + sessions, x, [first] + after)
  {
    assert Front([first] + sessions) == [first] + Front(sessions);
  }

  lemma {:induction false} ServeContinued(cfg: Config, skips: seq<string>, signals: seq<Signal>, x: Signal)
    requires cfg.HasEndpoints()
    ensures Serve(cfg, skips, signals) != []
    ensures Continued(Serve(cfg, skips, signals), x, Serve(cfg, skips, signals + [x]))
    decreases |signals|, 0
  {
    if signals == [] {
      assert (signals + [x])[1..] == [];
    } else {
      assert (signals + [x])[1..] == signals[1..] + [x];
      if signals[0].Hangup? {
        match signals[0].load
        case Loaded(next) =>
          SessionsContinued(next, signals[1..], x);
          PrefixContinued(Session(cfg, skips, Replaced(next)), Sessions(next, signals[1..]), x,
                          Sessions(next, signals[1..] + [x]));
        case Invalid(reason) => ServeContinued(cfg, skips + [reason], signals[1..], x);
      }
    }
  }

  lemma {:induction false} SessionsContinued(cfg: Config, signals: seq<Signal>, x: Signal)
    ensures Sessions(cfg, signals) != []
    ensures Continued(Sessions(cfg, signals), x, Sessions(cfg, signals + [x]))
    decreases |signals|, 1
  {
    if cfg.HasEndpoints() {
      ServeContinued(cfg, [], signals, x);
    }
  }

  /** What a signal adds to the trace. */
  lemma {:induction false} ContinuedRenders(sessions: seq<Session>, x: Signal, after: seq<Session>)
    requires Chain(sessions) && Continued(sessions, x, after) && Last(sessions).end == Open
    ensures RenderAll(after) == RenderAll(sessions) +
      match x
      case Shutdown => [ShutdownStarted]
      case TasksDone => [ShutdownStarted]
      case Hangup(Invalid(reason)) => [ReloadAttempted, ReloadSkipped(reason)]
      case Hangup(Loaded(next)) =>
        [ReloadAttempted, ReloadSucceeded, ShutdownStarted, ConfigLoaded(next.endpoints)]
  {
    match x
    case Shutdown => StopRenders(sessions);
    case TasksDone => StopRenders(sessions);
    case Hangup(Invalid(reason)) => SkipOneMore(sessions, reason);
    case Hangup(Loaded(next)) =>
      SucceedRenders(sessions, next, if next.endpoints > 0 || next.tcpPort then Open else NoEndpoints);
      Associative(RenderAll(sessions), Unfinished(Closed(true)), [ConfigLoaded(next.endpoints)]);
  }

  /** The nested loops are a flat machine: each signal, as it comes, adds its own events,
      until a session has ended for good. */
  lemma {:induction false} OneMoreSignal(cfg: Config, signals: seq<Signal>, x: Signal)
    ensures Sessions(cfg, signals) != []
    ensures var before, after := Sessions(cfg, signals), Sessions(cfg, signals + [x]);
      if Last(before).end != Open then after == before
      else
        RenderAll(after) == RenderAll(before) +
          match x
          case Shutdown => [ShutdownStarted]
          case TasksDone => [ShutdownStarted]
          case Hangup(Invalid(reason)) => [ReloadAttempted, ReloadSkipped(reason)]
          case Hangup(Loaded(next)) =>
            [ReloadAttempted, ReloadSucceeded, ShutdownStarted, ConfigLoaded(next.endpoints)]
  {
    SessionsContinued(cfg, signals, x);
    SessionsAreChain(cfg, signals);
    if Last(Sessions(cfg, signals)).end == Open {
      ContinuedRenders(Sessions(cfg, signals), x, Sessions(cfg, signals + [x]));
    }
  }

  /** A run goes on exactly while every signal is a hangup and every configuration that
      loads, from the first on, has an endpoint or a TCP port. */
  lemma {:induction false} OpenExactly(cfg: Config, signals: seq<Signal>)
    ensures Sessions(cfg, signals) != []
    ensures Last(Sessions(cfg, signals)).end == Open <==>
      && (cfg.endpoints > 0 || cfg.tcpPort)
      && forall i :: 0 <= i < |signals| ==>
           signals[i].Hangup? &&
           (signals[i].load.Loaded? ==> signals[i].load.cfg.endpoints > 0 || signals[i].load.cfg.tcpPort)
  {
    if signals != [] {
      var front, x := signals[..|signals| - 1], signals[|signals| - 1];
      OpenExactly(cfg, front);
      SessionsContinued(cfg, front, x);
      assert signals == front + [x];
    }
  }

  // ---- The loop ------------------------------------------------------------------------

  function Configs(sessions: seq<Session>): seq<Config> {
    seq(|sessions|, i requires 0 <= i < |sessions| => sessions[i].cfg)
  }

  datatype Outcome = StillRunning | Exited | Failed(reason: string)

  function OutcomeOf(end: End): Outcome {
    if end == Open then StillRunning else Exited
  }

  lemma {:induction false} SkipOne(skips: seq<string>, reason: string)
    ensures Skipped(skips + [reason]) == Skipped(skips) + [ReloadAttempted] + [ReloadSkipped(reason)]
  {
  }

  /** The effect of one signal on the sessions still to come. */
  lemma {:induction false} ServeOne(cfg: Config, skips: seq<string>, signals: seq<Signal>, at: nat)
    requires at < |signals|
    ensures Serve(cfg, skips, signals[at..]) ==
      match signals[at]
      case Hangup(Loaded(next)) => [Session(cfg, skips, Replaced(next))] + Sessions(next, signals[at + 1..])
      case Hangup(Invalid(reason)) => Serve(cfg, skips + [reason], signals[at + 1..])
      case _ => [Session(cfg, skips, Stopped)]
  {
  }

  /** The inner loop: serve one configuration until it is stopped, replaced, or the
      signals are used up. */
  method ServeSession(config: Config, signals: seq<Signal>, from: nat)
    returns (events: seq<Event>, next: Option<Config>, at: nat, outcome: Outcome, ghost session: Session)
    requires from <= |signals|
    ensures from <= at <= |signals|
    ensures session.cfg == config && events == Skipped(session.skips) + Closing(session.end)
    ensures Serve(config, [], signals[from..]) ==
      [session] + (if session.end.Replaced? then Sessions(session.end.next, signals[at..]) else [])
    ensures next == (if session.end.Replaced? then Some(session.end.next) else None)
    ensures next.Some? ==> from < at
    ensures session.end != NoEndpoints && outcome == OutcomeOf(session.end)
  {
    events, next, at, outcome := [], None, from, Exited;
    ghost var skips: seq<string> := [];
    while true
      invariant from <= at <= |signals|
      invariant events == Skipped(skips)
      invariant Serve(config, [], signals[from..]) == Serve(config, skips, signals[at..])
      invariant next == None && outcome == Exited
      decreases |signals| - at
    {
      if at == |signals| {
        session := Session(config, skips, Open);
        outcome := StillRunning;
        return;
      }
      ServeOne(config, skips, signals, at);
      var signal := signals[at];
      at := at + 1;
      if signal.Hangup? {
        events := events + [ReloadAttempted];
        match signal.load {
          case Loaded(cfg) =>
            next := Some(cfg);
            events := events + [ReloadSucceeded];
            session := Session(config, skips, Replaced(cfg));
            break;
          case Invalid(reason) =>
            events := events + [ReloadSkipped(reason)];
            SkipOne(skips, reason);
            skips := skips + [reason];
        }
      } else {
        session := Session(config, skips, Stopped);
        break;
      }
    }
    events := events + [ShutdownStarted];
  }

  /** The outer loop, from the first configuration on. */
  method RunLoaded(initial: Config, signals: seq<Signal>)
    returns (events: seq<Event>, ran: seq<Config>, outcome: Outcome)
    ensures var sessions := Sessions(initial, signals);
      && events == RenderAll(sessions)
      && ran == Configs(sessions)
      && sessions != [] && outcome == OutcomeOf(sessions[|sessions| - 1].end)
  {
    events, ran := [], [];
    var config := initial;
    var at := 0;
    ghost var done: seq<Session> := [];
    while true
      invariant at <= |signals|
      invariant Sessions(initial, signals) == done + Sessions(config, signals[at..])
      invariant events == RenderAll(done)
      invariant ran == Configs(done)
      decreases |signals| - at
    {
      ran := ran + [config];
      if !config.HasEndpoints() {
        FinishSession(done, Session(config, [], NoEndpoints));
        events := events + [ConfigLoaded(config.endpoints)];
        assert Sessions(initial, signals) == done + [Session(config, [], NoEndpoints)];
        return events, ran, Exited;
      }
      ghost var session;
      var served, next;
      served, next, at, outcome, session := ServeSession(config, signals, at);
      FinishSession(done, session);
      Regroup(done, session, if next.Some? then Sessions(next.value, signals[at..]) else []);
      events := events + ([ConfigLoaded(config.endpoints)] + served);
      done := done + [session];
      if next == None {
        assert Sessions(initial, signals) == done;
        return events, ran, outcome;
      }
      config := next.value;
    }
  }

  /** `ran` lists the configuration of each session in turn. A run whose signals are used
      up is left `StillRunning`. */
  method RunWithSignals(initial: Load, signals: seq<Signal>)
    returns (events: seq<Event>, ran: seq<Config>, outcome: Outcome)
    ensures initial.Invalid? ==> events == [] && ran == [] && outcome == Failed(initial.reason)
    ensures initial.Loaded? ==>
      var sessions := Sessions(initial.cfg, signals);
      && events == RenderAll(sessions)
      && ran == Configs(sessions)
      && sessions != [] && outcome == OutcomeOf(sessions[|sessions| - 1].end)
    // A session is served exactly when its configuration has an endpoint or a TCP port.
    ensures forall i :: 0 <= i < |ran| - 1 ==> ran[i].endpoints > 0 || ran[i].tcpPort
    ensures initial.Loaded? ==>
      var last := ran[|ran| - 1];
      events != [] &&
      ((outcome == Exited && events[|events| - 1].ConfigLoaded?) <==> (last.endpoints == 0 && !last.tcpPort))
  {
    if initial.Invalid? {
      return [], [], Failed(initial.reason);
    }
    events, ran, outcome := RunLoaded(initial.cfg, signals);
    SessionsAreChain(initial.cfg, signals);
    ServedExactly(Sessions(initial.cfg, signals));
  }

  /** A session is served exactly when its configuration has an endpoint or a TCP port. */
  lemma {:induction false} ServedExactly(sessions: seq<Session>)
    requires Chain(sessions)
    ensures var ran, events, last := Configs(sessions), RenderAll(sessions), Last(sessions);
      && (forall i :: 0 <= i < |ran| - 1 ==> ran[i].endpoints > 0 || ran[i].tcpPort)
      && events != []
      && ((OutcomeOf(last.end) == Exited && events[|events| - 1].ConfigLoaded?) <==>
          (last.cfg.endpoints == 0 && !last.cfg.tcpPort))
  {
    FinishSession(Front(sessions), Last(sessions));
    assert sessions == Front(sessions) + [Last(sessions)];
    forall i | 0 <= i < |sessions| - 1 ensures sessions[i].cfg.endpoints > 0 || sessions[i].cfg.tcpPort {
      assert sessions[i].end == Replaced(sessions[i + 1].cfg);
    }
  }

  lemma {:induction false} Regroup(done: seq<Session>, s: Session, more: seq<Session>)
    ensures done + ([s] + more) == done + [s] + more
    ensures more == [] ==> done + ([s] + more) == done + [s]
  {
  }

  lemma {:induction false} FinishSession(done: seq<Session>, s: Session)
    ensures RenderAll(done + [s]) == RenderAll(done) + Render(s)
    ensures Render(s) == [ConfigLoaded(s.cfg.endpoints)] + (Skipped(s.skips) + Closing(s.end))
    ensures Configs(done + [s]) == Configs(done) + [s.cfg]
  {
  }
}
