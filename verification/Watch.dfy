/**
 Watch mode: one compile loop, request handlers, the file watcher and browser clients share a board path, a result and
 tokens on channels of capacity one. Every step below is atomic in the program: it runs under one mutex or is one
 channel operation. `clock`, the two stamps and `results` are history the program does not keep.
 */
module Watch {

  datatype Result = Result(board: string, started: nat)

  datatype Compiler =
    | Idle
    | Took
    | Compiling(board: string)
    | Compiled(result: Result)
    | Published
    | Notifying(left: set<nat>)

  datatype Handler = Arrived(path: string) | Holding(path: string) | Posting | Finished

  datatype Holder = Free | ByCompiler | ByHandler(h: nat)

  /** `number` counts broadcast results from one; zero stands for no result yet. */
  datatype Phase = Fresh | Ready | Writing(number: nat) | Waiting | Gone

  datatype Client = Client(phase: Phase, token: bool, log: seq<nat>)

  datatype State = State(
    clock: nat, lastChange: nat, lastStart: nat,
    saved: bool, token: bool,
    boardPath: string, holder: Holder,
    compiler: Compiler, results: seq<Result>,
    handlers: seq<Handler>, clients: seq<Client>)

  datatype Event =
    | Save | Visit(path: string) | Connect | Leave(c: nat)
    | PostSave | LockPath(h: nat) | UpdatePath(h: nat) | PostPath(h: nat)
    | TakeToken | StartCompile | EndCompile | SetResult | LockClients | Notify(c: nat) | UnlockClients
    | Register(c: nat) | Read(c: nat) | Write(c: nat) | TakeResult(c: nat)

  /** The file watcher is about to ask for the first compile. */
  const INITIAL := State(2, 1, 0, true, false, "", Free, Idle, [], [], [])

  predicate IsRegistered(cl: Client) {
    cl.phase.Ready? || cl.phase.Writing? || cl.phase.Waiting?
  }

  function Registered(clients: seq<Client>): set<nat> {
    set c | 0 <= c < |clients| && IsRegistered(clients[c])
  }

  /** Steps of the world outside: the user saves, opens a board, opens or closes a page. */
  predicate IsExternal(e: Event) {
    e.Save? || e.Visit? || e.Connect? || e.Leave?
  }

  predicate Enabled(s: State, e: Event) {
    match e
    case Save => true
    case Visit(_) => true
    case Connect => true
    case Leave(c) => c < |s.clients| && !s.clients[c].phase.Gone? && !s.compiler.Notifying?
    case PostSave => s.saved
    case LockPath(h) => h < |s.handlers| && s.handlers[h].Arrived? && s.holder.Free?
    case UpdatePath(h) => h < |s.handlers| && s.handlers[h].Holding?
    case PostPath(h) => h < |s.handlers| && s.handlers[h].Posting?
    case TakeToken => s.compiler.Idle? && s.token
    case StartCompile => s.compiler.Took? && s.holder.Free?
    case EndCompile => s.compiler.Compiling?
    case SetResult => s.compiler.Compiled?
    case LockClients => s.compiler.Published?
    case Notify(c) => s.compiler.Notifying? && c in s.compiler.left && c < |s.clients|
    case UnlockClients => s.compiler.Notifying? && s.compiler.left == {}
    case Register(c) => c < |s.clients| && s.clients[c].phase.Fresh? && !s.compiler.Notifying?
    case Read(c) => c < |s.clients| && s.clients[c].phase.Ready?
    case Write(c) => c < |s.clients| && s.clients[c].phase.Writing?
    case TakeResult(c) => c < |s.clients| && s.clients[c].phase.Waiting? && s.clients[c].token
  }

  function WithClient(s: State, c: nat, cl: Client): State
    requires c < |s.clients|
  {
    s.(clients := s.clients[c := cl])
  }

  function WithHandler(s: State, h: nat, hd: Handler): State
    requires h < |s.handlers|
  {
    s.(handlers := s.handlers[h := hd])
  }

  /** A request leaves a token; when one is waiting already, the request is merged with it. */
  function Requested(s: State): State {
    s.(token := true)
  }

  function Next(s: State, e: Event): State
    requires Enabled(s, e)
  {
    match e
    case Save => s.(saved := true, lastChange := s.clock, clock := s.clock + 1)
    case Visit(path) => s.(handlers := s.handlers + [Arrived(path)])
    case Connect => s.(clients := s.clients + [Client(Fresh, false, [])])
    case Leave(c) => WithClient(s, c, s.clients[c].(phase := Gone))
    case PostSave => Requested(s.(saved := false))
    case LockPath(h) => WithHandler(s, h, Holding(s.handlers[h].path)).(holder := ByHandler(h))
    case UpdatePath(h) =>
      var path := s.handlers[h].path;
      if path != s.boardPath then
        WithHandler(s, h, Posting).(holder := Free, boardPath := path, lastChange := s.clock, clock := s.clock + 1)
      else WithHandler(s, h, Finished).(holder := Free)
    case PostPath(h) => Requested(WithHandler(s, h, Finished))
    case TakeToken => s.(token := false, compiler := Took)
    case StartCompile =>
      s.(compiler := Compiling(s.boardPath), holder := ByCompiler, lastStart := s.clock, clock := s.clock + 1)
    case EndCompile => s.(compiler := Compiled(Result(s.compiler.board, s.lastStart)), holder := Free)
    case SetResult => s.(compiler := Published, results := s.results + [s.compiler.result])
    case LockClients => s.(compiler := Notifying(Registered(s.clients)))
    case Notify(c) =>
      WithClient(s, c, s.clients[c].(token := true)).(compiler := Notifying(s.compiler.left - {c}))
    case UnlockClients => s.(compiler := Idle)
    case Register(c) => WithClient(s, c, s.clients[c].(phase := Ready))
    case Read(c) =>
      WithClient(s, c, s.clients[c].(phase := if s.results == [] then Waiting else Writing(|s.results|)))
    case Write(c) =>
      var cl := s.clients[c];
      WithClient(s, c, cl.(phase := Waiting, log := cl.log + [cl.phase.number]))
    case TakeResult(c) => WithClient(s, c, s.clients[c].(phase := Ready, token := false))
  }

  function Run(s: State, events: seq<Event>): (r: State)
    requires CanRun(s, events)
    decreases |events|
  {
    if events == [] then s else Run(Next(s, events[0]), events[1..])
  }

  predicate CanRun(s: State, events: seq<Event>)
    decreases |events|
  {
    events == [] || (Enabled(s, events[0]) && CanRun(Next(s, events[0]), events[1..]))
  }

  // ----- what every step keeps -----

  predicate MutexHeld(s: State) {
    && (s.holder.ByCompiler? <==> s.compiler.Compiling?)
    && (forall h :: 0 <= h < |s.handlers| ==> (s.handlers[h].Holding? <==> s.holder == ByHandler(h)))
    && (s.holder.ByHandler? ==> s.holder.h < |s.handlers|)
  }

  predicate Posts(s: State) {
    s.saved || exists h :: 0 <= h < |s.handlers| && s.handlers[h].Posting?
  }

  /** A change newer than the last started compile has a token waiting, or someone is about to post one. */
  predicate ChangePending(s: State) {
    s.lastChange > s.lastStart ==> s.token || s.compiler.Took? || Posts(s)
  }

  predicate Stamped(s: State) {
    && s.lastChange < s.clock && s.lastStart < s.clock
    && (s.lastStart == 0 ==> s.results == [] && (s.compiler.Idle? || s.compiler.Took?))
  }

  /** The board and start of the newest compile, running or done. */
  function Newest(s: State): Result {
    if s.compiler.Compiling? then Result(s.compiler.board, s.lastStart)
    else if s.compiler.Compiled? then s.compiler.result
    else if s.results != [] then s.results[|s.results| - 1]
    else Result("", 0)
  }

  /** When nothing has changed since, the newest compile is of the present board path. */
  predicate NewestIsCurrent(s: State) {
    && Newest(s).started == s.lastStart
    && (s.lastChange <= s.lastStart ==> Newest(s).board == s.boardPath)
    && (s.compiler.Compiling? ==> s.compiler.board == s.boardPath)
  }

  function Last(log: seq<nat>): nat {
    if log == [] then 0 else log[|log| - 1]
  }

  predicate Ordered(log: seq<nat>) {
    forall i, j :: 0 <= i < j < |log| ==> log[i] <= log[j]
  }

  /** A broadcast has set its result and has not yet reached client c. */
  predicate Coming(s: State, c: nat) {
    s.compiler.Published? || (s.compiler.Notifying? && c in s.compiler.left)
  }

  /** What a client has read, or is writing, is the current result, or it will be told. */
  predicate Informed(s: State, c: nat)
    requires c < |s.clients|
  {
    var cl := s.clients[c];
    && (cl.phase.Writing? ==> cl.phase.number == |s.results| || cl.token || Coming(s, c))
    && (cl.phase.Waiting? ==> Last(cl.log) == |s.results| || cl.token || Coming(s, c))
  }

  predicate LogGood(s: State, c: nat)
    requires c < |s.clients|
  {
    var cl := s.clients[c];
    && Ordered(cl.log) && Last(cl.log) <= |s.results|
    && (cl.phase.Writing? ==> Last(cl.log) <= cl.phase.number && 1 <= cl.phase.number <= |s.results|)
    && (forall i :: 0 <= i < |cl.log| ==> 1 <= cl.log[i])
    && (cl.phase.Fresh? ==> cl.log == [])
  }

  predicate ClientsGood(s: State) {
    && (forall c :: 0 <= c < |s.clients| ==> Informed(s, c) && LogGood(s, c))
    && (s.compiler.Notifying? ==> s.compiler.left <= Registered(s.clients))
  }

  predicate Inv(s: State) {
    MutexHeld(s) && ChangePending(s) && Stamped(s) && NewestIsCurrent(s) && ClientsGood(s)
  }

  lemma InitialInv()
    ensures Inv(INITIAL)
  {
  }

  lemma MutexStep(s: State, e: Event)
    requires MutexHeld(s) && Enabled(s, e)
    ensures MutexHeld(Next(s, e))
  {
    hide Registered;
  }

  lemma ChangeStep(s: State, e: Event)
    requires MutexHeld(s) && ChangePending(s) && Stamped(s) && Enabled(s, e)
    ensures ChangePending(Next(s, e)) && Stamped(Next(s, e))
  {
    hide Registered, MutexHeld;
    var t := Next(s, e);
    if e.UpdatePath? && t.handlers[e.h].Posting? {
      assert Posts(t);
    } else if Posts(s) && !s.saved {
      var h :| 0 <= h < |s.handlers| && s.handlers[h].Posting?;
      if !(e.PostPath? && e.h == h) {
        assert t.handlers[h].Posting?;
      }
    }
  }

  lemma NewestStep(s: State, e: Event)
    requires MutexHeld(s) && Stamped(s) && NewestIsCurrent(s) && Enabled(s, e)
    ensures NewestIsCurrent(Next(s, e))
  {
    hide Registered;
  }

  /** The steps that change client c itself. */
  predicate IsOf(e: Event, c: nat) {
    (e.Leave? || e.Notify? || e.Register? || e.Read? || e.Write? || e.TakeResult?) && e.c == c
  }

  lemma OthersStay(s: State, e: Event, c: nat)
    requires Enabled(s, e) && c < |s.clients| && !IsOf(e, c)
    ensures c < |Next(s, e).clients| && Next(s, e).clients[c] == s.clients[c]
    ensures |s.results| <= |Next(s, e).results|
  {
    hide Registered;
  }

  lemma OrderedMore(log: seq<nat>, number: nat)
    requires Ordered(log) && Last(log) <= number
    ensures Ordered(log + [number]) && Last(log + [number]) == number
  {
  }

  lemma EmptyOrdered()
    ensures Ordered([]) && Last([]) == 0
  {
  }

  lemma LogStep(s: State, e: Event, c: nat)
    requires ClientsGood(s) && Enabled(s, e) && c < |s.clients| && IsOf(e, c)
    ensures LogGood(Next(s, e), c)
  {
    hide Informed, Registered, Ordered, Last;
    assert LogGood(s, c);
    if e.Write? {
      OrderedMore(s.clients[c].log, s.clients[c].phase.number);
    }
  }

  lemma InformedStep(s: State, e: Event, c: nat)
    requires ClientsGood(s) && Enabled(s, e) && c < |s.clients| && IsOf(e, c)
    ensures Informed(Next(s, e), c)
  {
    hide Registered, Ordered, Last;
    assert Informed(s, c) && LogGood(s, c);
    if e.Write? {
      OrderedMore(s.clients[c].log, s.clients[c].phase.number);
    }
  }

  /** A client that takes no step itself keeps what it knows, since every newer result is coming to it. */
  lemma InformedStays(s: State, e: Event, c: nat)
    requires ClientsGood(s) && Enabled(s, e) && c < |s.clients| && !IsOf(e, c)
    ensures c < |Next(s, e).clients| && Informed(Next(s, e), c) && LogGood(Next(s, e), c)
  {
    hide Last, Ordered;
    OthersStay(s, e, c);
    assert Informed(s, c) && LogGood(s, c);
  }

  lemma ClientsStep(s: State, e: Event)
    requires ClientsGood(s) && Enabled(s, e)
    ensures ClientsGood(Next(s, e))
  {
    hide Informed, LogGood;
    var t := Next(s, e);
    forall c | 0 <= c < |t.clients|
      ensures Informed(t, c) && LogGood(t, c)
    {
      if c >= |s.clients| {
        NewClient(t, c);
      } else if IsOf(e, c) {
        LogStep(s, e, c);
        InformedStep(s, e, c);
      } else {
        InformedStays(s, e, c);
      }
    }
  }

  lemma NewClient(s: State, c: nat)
    requires c < |s.clients| && s.clients[c] == Client(Fresh, false, [])
    ensures Informed(s, c) && LogGood(s, c)
  {
    EmptyOrdered();
  }

  lemma StepInv(s: State, e: Event)
    requires Inv(s) && Enabled(s, e)
    ensures Inv(Next(s, e))
  {
    hide MutexHeld, ChangePending, Stamped, NewestIsCurrent, ClientsGood, Next;
    MutexStep(s, e);
    ChangeStep(s, e);
    NewestStep(s, e);
    ClientsStep(s, e);
  }

  /** Every interleaving keeps the invariant. */
  lemma {:induction false} RunInv(s: State, events: seq<Event>)
    requires Inv(s) && CanRun(s, events)
    ensures Inv(Run(s, events))
    decreases |events|
  {
    hide Inv, Next, Enabled;
    if events != [] {
      StepInv(s, events[0]);
      RunInv(Next(s, events[0]), events[1..]);
    }
  }

  ghost predicate Reachable(s: State) {
    exists events :: CanRun(INITIAL, events) && Run(INITIAL, events) == s
  }

  lemma ReachableInv(s: State)
    requires Reachable(s)
    ensures Inv(s)
  {
    var events :| CanRun(INITIAL, events) && Run(INITIAL, events) == s;
    InitialInv();
    RunInv(INITIAL, events);
  }

  /**
   A client blocked on an empty channel has last written the current result, unless a broadcast has set a newer one and
   has yet to notify it.
   */
  lemma BlockedClientIsCurrent(s: State, c: nat)
    requires Reachable(s) && c < |s.clients| && s.clients[c].phase.Waiting? && !s.clients[c].token
    ensures Last(s.clients[c].log) == |s.results| || Coming(s, c)
  {
    ReachableInv(s);
    assert Informed(s, c);
  }

  /** What a client writes never goes back to an older result, and is always a result that was broadcast. */
  lemma WritesNeverGoBack(s: State, c: nat)
    requires Reachable(s) && c < |s.clients|
    ensures Ordered(s.clients[c].log)
    ensures forall i :: 0 <= i < |s.clients[c].log| ==> 1 <= s.clients[c].log[i] <= |s.results|
  {
    ReachableInv(s);
    assert LogGood(s, c);
  }

  /** A change newer than the last started compile always has a compile coming. */
  lemma NoChangeIsLost(s: State)
    requires Reachable(s) && s.lastChange > s.lastStart
    ensures s.token || s.compiler.Took? || Posts(s)
  {
    ReachableInv(s);
  }

  // ----- settling -----

  /** Nothing moves any more until the world outside does something. */
  ghost predicate Quiet(s: State) {
    forall e :: Enabled(s, e) ==> IsExternal(e)
  }

  lemma NotifyingMoves(s: State) returns (e: Event)
    requires ClientsGood(s) && s.compiler.Notifying?
    ensures Enabled(s, e) && !IsExternal(e)
  {
    if s.compiler.left == {} {
      e := UnlockClients;
    } else {
      var c :| c in s.compiler.left;
      e := Notify(c);
    }
  }

  /** The compile loop is never stuck: the mutexes it waits for are released by steps that are enabled. */
  lemma QuietIsIdle(s: State)
    requires Inv(s) && Quiet(s)
    ensures s.compiler.Idle? && !s.token && !Posts(s)
    ensures forall c :: 0 <= c < |s.clients| && IsRegistered(s.clients[c]) ==>
            s.clients[c].phase.Waiting? &&
            !s.clients[c].token
  {
    assert !s.saved by {
      assert !Enabled(s, PostSave);
    }
    forall h | 0 <= h < |s.handlers|
      ensures !s.handlers[h].Posting? && !s.handlers[h].Holding?
    {
      assert !Enabled(s, PostPath(h)) && !Enabled(s, UpdatePath(h));
    }
    assert !Enabled(s, EndCompile) && !Enabled(s, SetResult) && !Enabled(s, LockClients) && !Enabled(s, UnlockClients);
    assert !Enabled(s, StartCompile) && !Enabled(s, TakeToken);
    if s.compiler.Notifying? {
      var e := NotifyingMoves(s);
    }
    forall c | 0 <= c < |s.clients| && IsRegistered(s.clients[c])
      ensures s.clients[c].phase.Waiting? && !s.clients[c].token
    {
      assert !Enabled(s, Read(c)) && !Enabled(s, Write(c)) && !Enabled(s, TakeResult(c));
    }
  }

  // ----- what was visited and when it was compiled, from the events alone -----

  /** The paths of the page requests in order; the handler of request h is number h. */
  function Visits(events: seq<Event>): (paths: seq<string>)
    decreases |events|
  {
    if events == [] then []
    else
      var (before, last) := (events[..|events| - 1], events[|events| - 1]);
      Visits(before) + if last.Visit? then [last.path] else []
  }

  /** The last handler to reach its update is number h, at event i. */
  predicate UpdatedLast(events: seq<Event>, i: nat, h: nat) {
    && i < |events| && events[i] == UpdatePath(h)
    && forall j :: i < j < |events| ==> !events[j].UpdatePath?
  }

  /** Event i is a save or gives the run another board path than it had before. */
  predicate ChangesAt(events: seq<Event>, i: nat) {
    && i < |events|
    && (|| events[i].Save?
        || (&& CanRun(INITIAL, events[..i]) && CanRun(INITIAL, events[..i + 1])
            && Run(INITIAL, events[..i]).boardPath != Run(INITIAL, events[..i + 1]).boardPath))
  }

  /** The path carried by the visit whose handler was last to update the board path, and "" if none did. */
  ghost predicate IsLastVisited(events: seq<Event>, path: string) {
    && (forall i: nat, h: nat :: UpdatedLast(events, i, h) ==> h < |Visits(events)| && path == Visits(events)[h])
    && ((forall i :: 0 <= i < |events| ==> !events[i].UpdatePath?) ==> path == "")
  }

  predicate CompiledAfter(events: seq<Event>, i: nat) {
    exists j :: i < j < |events| && events[j].StartCompile?
  }

  lemma {:induction false} RunPrefix(s: State, events: seq<Event>, i: nat)
    requires CanRun(s, events) && i <= |events|
    ensures CanRun(s, events[..i])
    ensures i < |events| ==> Enabled(Run(s, events[..i]), events[i])
    ensures i < |events| ==>
              CanRun(s, events[..i + 1]) && Run(s, events[..i + 1]) == Next(Run(s, events[..i]), events[i])
    decreases |events|
  {
    hide Next, Enabled;
    if events != [] {
      var t := Next(s, events[0]);
      if i > 0 {
        RunPrefix(t, events[1..], i - 1);
        assert events[..i][1..] == events[1..][..i - 1];
        if i < |events| {
          assert events[..i + 1][1..] == events[1..][..i];
        }
      } else {
        assert events[..1][1..] == [];
      }
    }
  }

  /** What the program keeps of the requests: the path each handler has still to use, and the path last used. */
  ghost predicate PathsKept(s: State, events: seq<Event>) {
    && |s.handlers| == |Visits(events)|
    && (forall h :: 0 <= h < |s.handlers| ==>
         (s.handlers[h].Arrived? || s.handlers[h].Holding?) ==> s.handlers[h].path == Visits(events)[h])
    && IsLastVisited(events, s.boardPath)
  }

  lemma PathsStep(s: State, events: seq<Event>, e: Event)
    requires PathsKept(s, events) && Enabled(s, e)
    ensures PathsKept(Next(s, e), events + [e])
  {
    var (t, after) := (Next(s, e), events + [e]);
    assert after[..|events|] == events && after[|events|] == e;
    forall i: nat, h: nat | UpdatedLast(after, i, h)
      ensures h < |Visits(after)| && t.boardPath == Visits(after)[h]
    {
      if i < |events| {
        assert !after[|events|].UpdatePath?;
        assert forall j :: i < j < |events| ==> after[j] == events[j];
        assert UpdatedLast(events, i, h);
      }
    }
    if forall i :: 0 <= i < |after| ==> !after[i].UpdatePath? {
      assert !after[|events|].UpdatePath?;
      assert forall i :: 0 <= i < |events| ==> after[i] == events[i];
    }
  }

  /** Over every run: the board path is the one carried by the visit whose handler was last to update it. */
  lemma {:induction false} BoardIsLastVisited(events: seq<Event>)
    requires CanRun(INITIAL, events)
    ensures IsLastVisited(events, Run(INITIAL, events).boardPath)
    ensures PathsKept(Run(INITIAL, events), events)
    decreases |events|
  {
    hide Next, Enabled;
    if events != [] {
      var n := |events| - 1;
      RunPrefix(INITIAL, events, n);
      assert events[..n + 1] == events == events[..n] + [events[n]];
      BoardIsLastVisited(events[..n]);
      PathsStep(Run(INITIAL, events[..n]), events[..n], events[n]);
    }
  }

  lemma ChangeCounts(s: State, e: Event)
    requires Stamped(s) && Enabled(s, e)
    ensures e.Save? || Next(s, e).boardPath != s.boardPath ==> Next(s, e).lastChange > Next(s, e).lastStart
    ensures !e.StartCompile? ==> Next(s, e).lastStart == s.lastStart && Next(s, e).lastChange >= s.lastChange
  {
  }

  lemma RunStamped(events: seq<Event>)
    requires CanRun(INITIAL, events)
    ensures Stamped(Run(INITIAL, events))
  {
    InitialInv();
    RunInv(INITIAL, events);
  }

  /** With no change left to compile, every save and every change of the board path was followed by a compile. */
  lemma {:induction false} ChangesCompiled(events: seq<Event>, i: nat)
    requires CanRun(INITIAL, events) && ChangesAt(events, i)
    requires Run(INITIAL, events).lastChange <= Run(INITIAL, events).lastStart
    ensures CompiledAfter(events, i)
    decreases |events|
  {
    hide Enabled, Next, Run, CanRun, Stamped;
    var n := |events| - 1;
    RunPrefix(INITIAL, events, n);
    assert events[..n + 1] == events;
    RunStamped(events[..n]);
    ChangeCounts(Run(INITIAL, events[..n]), events[n]);
    if i < n && !events[n].StartCompile? {
      assert events[..n][..i] == events[..i] && events[..n][..i + 1] == events[..i + 1];
      ChangesCompiled(events[..n], i);
      var j :| i < j < |events[..n]| && events[..n][j].StartCompile?;
      assert events[j].StartCompile?;
    }
  }

  /**
   Once everything has settled, every open page shows the newest result. That result is of the board last visited - the
   path carried by the visit whose handler was last to update the path - or of the index if none was, and its compile
   started after every save and every change of the path.
   */
  lemma QuietIsFresh(events: seq<Event>)
    requires CanRun(INITIAL, events) && Quiet(Run(INITIAL, events))
    ensures var s := Run(INITIAL, events);
            s.results != [] && s.results[|s.results| - 1].board == s.boardPath &&
            s.results[|s.results| - 1].started == s.lastStart >= s.lastChange &&
            (forall c :: 0 <= c < |s.clients| && IsRegistered(s.clients[c]) ==> Last(s.clients[c].log) == |s.results|)
    ensures IsLastVisited(events, Run(INITIAL, events).results[|Run(INITIAL, events).results| - 1].board)
    ensures forall i: nat :: ChangesAt(events, i) ==> CompiledAfter(events, i)
  {
    hide Next, Enabled, Quiet;
    var s := Run(INITIAL, events);
    assert Reachable(s);
    ReachableInv(s);
    QuietIsIdle(s);
    ChangeSeen(s);
    BoardIsLastVisited(events);
    forall c | 0 <= c < |s.clients| && IsRegistered(s.clients[c])
      ensures Last(s.clients[c].log) == |s.results|
    {
      assert Informed(s, c);
    }
    forall i: nat | ChangesAt(events, i)
      ensures CompiledAfter(events, i)
    {
      ChangesCompiled(events, i);
    }
  }

  lemma ChangeSeen(s: State)
    requires Reachable(s)
    ensures s.lastChange > 0
  {
    var events :| CanRun(INITIAL, events) && Run(INITIAL, events) == s;
    ChangesGrow(INITIAL, events);
  }

  lemma {:induction false} ChangesGrow(s: State, events: seq<Event>)
    requires CanRun(s, events) && 0 < s.lastChange < s.clock
    ensures 0 < Run(s, events).lastChange
    decreases |events|
  {
    if events != [] {
      ChangesGrow(Next(s, events[0]), events[1..]);
    }
  }

  // ----- progress -----

  function HandlerWork(handlers: seq<Handler>): nat {
    if handlers == [] then 0
    else
      var last := handlers[|handlers| - 1];
      HandlerWork(handlers[..|handlers| - 1]) +
      (if last.Arrived? then 3 else if last.Holding? then 2 else if last.Posting? then 1 else 0)
  }

  function ClientRank(cl: Client): nat {
    (if cl.token then 4 else 0) +
    (if cl.phase.Fresh? then 4 else if cl.phase.Ready? then 3 else if cl.phase.Writing? then 2 else 0)
  }

  function ClientWork(clients: seq<Client>): nat {
    if clients == [] then 0
    else ClientWork(clients[..|clients| - 1]) + ClientRank(clients[|clients| - 1])
  }

  function CompilerWork(s: State): nat {
    (if s.token then 7 else 0) +
    match s.compiler
    case Idle => 0
    case Took => 6
    case Compiling(_) => 5
    case Compiled(_) => 4
    case Published => 3
    case Notifying(_) => 2
  }

  function RequestWork(s: State): nat {
    HandlerWork(s.handlers) + if s.saved then 1 else 0
  }

  function Left(s: State): nat {
    if s.compiler.Notifying? then |s.compiler.left| else 0
  }

  /** Lexicographic: requests still to come, then the compile loop, then clients to notify, then clients' own steps. */
  predicate Less(t: State, s: State) {
    || RequestWork(t) < RequestWork(s)
    || (RequestWork(t) == RequestWork(s) && CompilerWork(t) < CompilerWork(s))
    || (RequestWork(t) == RequestWork(s) && CompilerWork(t) == CompilerWork(s) && Left(t) < Left(s))
    || (RequestWork(t) == RequestWork(s) && CompilerWork(t) == CompilerWork(s) && Left(t) == Left(s)
        && ClientWork(t.clients) < ClientWork(s.clients))
  }

  lemma {:induction false} HandlerWorkUpdate(handlers: seq<Handler>, h: nat, hd: Handler)
    requires h < |handlers|
    ensures HandlerWork(handlers[h := hd]) == HandlerWork(handlers) - HandlerWork([handlers[h]]) + HandlerWork([hd])
  {
    var n := |handlers| - 1;
    assert HandlerWork([handlers[h]]) == HandlerWork([]) + HandlerWork([handlers[h]]);
    if h == n {
      assert handlers[h := hd][..n] == handlers[..n];
    } else {
      HandlerWorkUpdate(handlers[..n], h, hd);
      assert handlers[h := hd][..n] == handlers[..n][h := hd];
    }
  }

  lemma {:induction false} ClientWorkUpdate(clients: seq<Client>, c: nat, cl: Client)
    requires c < |clients|
    ensures ClientWork(clients[c := cl]) == ClientWork(clients) - ClientRank(clients[c]) + ClientRank(cl)
  {
    var n := |clients| - 1;
    if c == n {
      assert clients[c := cl][..n] == clients[..n];
    } else {
      ClientWorkUpdate(clients[..n], c, cl);
      assert clients[c := cl][..n] == clients[..n][c := cl];
    }
  }

  lemma ClientStepShrinks(s: State, e: Event)
    requires Enabled(s, e) && (e.Register? || e.Read? || e.Write? || e.TakeResult?)
    ensures Less(Next(s, e), s)
  {
    hide HandlerWork, ClientWork, Registered;
    match e
    case Register(c) => ClientWorkUpdate(s.clients, c, s.clients[c].(phase := Ready));
    case Read(c) =>
      ClientWorkUpdate(s.clients, c, s.clients[c].(phase := Waiting));
      ClientWorkUpdate(s.clients, c, s.clients[c].(phase := Writing(|s.results|)));
    case Write(c) =>
      var cl := s.clients[c];
      ClientWorkUpdate(s.clients, c, cl.(phase := Waiting, log := cl.log + [cl.phase.number]));
    case TakeResult(c) => ClientWorkUpdate(s.clients, c, s.clients[c].(phase := Ready, token := false));
  }

  /** Every step of the program itself brings it closer to quiet; only the world outside adds work. */
  lemma InternalStepShrinks(s: State, e: Event)
    requires Inv(s) && Enabled(s, e) && !IsExternal(e)
    ensures Less(Next(s, e), s)
  {
    hide Inv, HandlerWork, ClientWork, Registered;
    match e
    case LockPath(h) => HandlerStep(s, h, Holding(s.handlers[h].path));
    case UpdatePath(h) =>
      HandlerStep(s, h, Posting);
      HandlerStep(s, h, Finished);
    case PostPath(h) => HandlerStep(s, h, Finished);
    case Notify(c) =>
      assert |s.compiler.left - {c}| == |s.compiler.left| - 1;
    case Register(_) => ClientStepShrinks(s, e);
    case Read(_) => ClientStepShrinks(s, e);
    case Write(_) => ClientStepShrinks(s, e);
    case TakeResult(_) => ClientStepShrinks(s, e);
    case _ =>
  }

  lemma HandlerStep(s: State, h: nat, hd: Handler)
    requires h < |s.handlers|
    ensures HandlerWork(s.handlers[h := hd]) == HandlerWork(s.handlers) - HandlerWork([s.handlers[h]]) +
            HandlerWork([hd])
    ensures HandlerWork([Finished]) == 0 && HandlerWork([Posting]) == 1
    ensures forall path :: HandlerWork([Holding(path)]) == 2 && HandlerWork([Arrived(path)]) == 3
    ensures s.handlers[h].Holding? ==> HandlerWork([s.handlers[h]]) == 2
    ensures s.handlers[h].Arrived? ==> HandlerWork([s.handlers[h]]) == 3
    ensures s.handlers[h].Posting? ==> HandlerWork([s.handlers[h]]) == 1
  {
    HandlerWorkUpdate(s.handlers, h, hd);
  }

  /** Left alone, the program settles from every reachable state: some run of its own steps ends quiet. */
  lemma {:induction false} Settles(s: State) returns (events: seq<Event>)
    requires Inv(s)
    ensures CanRun(s, events) && Quiet(Run(s, events))
    ensures forall i :: 0 <= i < |events| ==> !IsExternal(events[i])
    decreases RequestWork(s), CompilerWork(s), Left(s), ClientWork(s.clients)
  {
    events := [];
    if !Quiet(s) {
      var e :| Enabled(s, e) && !IsExternal(e);
      InternalStepShrinks(s, e);
      StepInv(s, e);
      hide Inv, Quiet, Next, Enabled, HandlerWork, ClientWork;
      var rest := Settles(Next(s, e));
      events := [e] + rest;
      assert events[1..] == rest;
    }
  }
}
